/**
 * The host driver and a stop-and-wait device, joined by two queues. The host-to-device queue is
 * lossless; device-to-host packets may be lost or sent again. Each packet carries the number of the
 * request/reply exchange it belongs to, which neither party reads.
 */
module Protocol {
  import opened Results
  import opened Words
  import opened Control
  import opened Session
  import opened Connection

  datatype Packet<K> = Packet(frame: Frame<K>, exchange: nat)

  datatype Message<K> = Message(base: u8, body: Body<K>)

  datatype Phase = Idle | Sending | Receiving | Failed

  /** A stop-and-wait peer: the request bit it expects, its own bit, and whether a reply is unacknowledged. */
  datatype Device<K> = Device(expected: bool, sendSeq: bool, outstanding: bool,
                              accepted: seq<Body<K>>, replies: seq<Message<K>>)

  datatype System<K> = System(
    keyRequest: K, keyResponse: K,
    host: Host<K>, phase: Phase, session: Option<Endpoint<K>>,
    requests: seq<Message<K>>, delivered: seq<Body<K>>, texts: seq<seq<u8>>,
    toDevice: seq<Packet<K>>, toHost: seq<Packet<K>>, device: Device<K>)

  /** The first two exchanges are the handshake; the session starts after them. */
  const ROUNDS: nat := 2

  datatype Step =
    | HostHandshake(base: u8, bytes: seq<u8>)
    | HostInstall
    | HostRequest(text: seq<u8>)
    | HostRead
    | HostTake
    | DeviceRead
    | DeviceAck
    | DeviceReply(base: u8, data: seq<u8>)
    | DeviceResend
    | Lose(index: nat)

  function Initial<K>(keyRequest: K, keyResponse: K): System<K> {
    System(keyRequest, keyResponse, Host(false, false, None), Idle, None, [], [], [], [], [],
           Device(false, false, false, [], []))
  }

  ghost predicate Enabled<K>(s: System<K>, step: Step) {
    match step
    case HostHandshake(base, _) => s.phase.Idle? && s.session.None? && |s.requests| < ROUNDS && IsDataBase(base)
    case HostInstall => s.phase.Idle? && s.session.None? && |s.requests| == ROUNDS
    case HostRequest(_) => s.phase.Idle? && s.session.Some?
    case HostRead => (s.phase.Sending? || (s.phase.Receiving? && s.host.pending.None?)) && s.toHost != []
    case HostTake => s.phase.Receiving? && s.host.pending.Some?
    case DeviceRead => s.toDevice != []
    case DeviceAck => s.device.accepted != []
    case DeviceReply(base, _) => |s.device.replies| < |s.device.accepted| && !s.device.outstanding && IsDataBase(base)
    case DeviceResend => s.device.outstanding && s.device.replies != []
    case Lose(i) => i < |s.toHost|
  }

  function StartSend<K>(s: System<K>, m: Message<K>): System<K> {
    s.(requests := s.requests + [m],
       toDevice := s.toDevice + [Packet(Frame(WithSeq(m.base, s.host.sendSeq), m.body), |s.requests|)],
       phase := Sending)
  }

  /** recv_data returned this payload: open it when a session is installed. */
  function Deliver<K(==)>(s: System<K>, body: Body<K>): System<K> {
    var s1 := s.(delivered := s.delivered + [body], phase := Idle);
    if s.session.None? then s1
    else
      var (e, pt) := Open(s.session.value, body);
      var s2 := s1.(session := Some(e));
      if pt.Ok? then s2.(texts := s.texts + [pt.value]) else s2.(phase := Failed)
  }

  function Acknowledge<K>(q: seq<Packet<K>>, ack: Option<bool>, exchange: nat): seq<Packet<K>> {
    if ack.Some? then q + [Packet(Frame(AckFor(ack.value), Plain([])), exchange)] else q
  }

  function HostReads<K(==)>(s: System<K>): System<K>
    requires s.toHost != []
  {
    var p, s1 := s.toHost[0], s.(toHost := s.toHost[1..]);
    if s.phase.Sending? then
      var (h, ack, done) := SendStep(s.host, p.frame);
      s1.(host := h, toDevice := Acknowledge(s.toDevice, ack, p.exchange), phase := if done then Receiving else Sending)
    else
      var (h, ack, done) := RecvStep(s.host, p.frame);
      var s2 := s1.(host := h, toDevice := Acknowledge(s.toDevice, ack, p.exchange));
      if done then Deliver(s2, p.frame.payload) else s2
  }

  function DeviceReads<K>(s: System<K>): System<K>
    requires s.toDevice != []
  {
    var f, d, s1 := s.toDevice[0].frame, s.device, s.(toDevice := s.toDevice[1..]);
    if IsAck(f.ctrl) then
      if d.outstanding && AckSeqOf(f.ctrl) == d.sendSeq
      then s1.(device := d.(outstanding := false, sendSeq := !d.sendSeq))
      else s1
    else if SeqOf(f.ctrl) == d.expected
    then s1.(device := d.(accepted := d.accepted + [f.payload], expected := !d.expected))
    else s1
  }

  function ReplyMessage<K>(s: System<K>, base: u8, data: seq<u8>): Message<K> {
    var k := |s.device.replies|;
    if k < ROUNDS then Message(base, Plain(data))
    else Message(ENCRYPTED_TRANSPORT, Sealed(s.keyResponse, IvFromNonce(NonceAfter(1, k - ROUNDS)), data))
  }

  /** The device's next reply, made and unacknowledged. */
  function WithReply<K>(s: System<K>, base: u8, data: seq<u8>): System<K> {
    s.(device := s.device.(replies := s.device.replies + [ReplyMessage(s, base, data)], outstanding := true))
  }

  function EmitReply<K>(s: System<K>): seq<Packet<K>>
    requires s.device.replies != []
  {
    var j := |s.device.replies| - 1;
    var m := s.device.replies[j];
    s.toHost + [Packet(Frame(WithSeq(m.base, s.device.sendSeq), m.body), j)]
  }

  function Apply<K(==)>(s: System<K>, step: Step): System<K>
    requires Enabled(s, step)
  {
    match step
    case HostHandshake(base, bytes) => StartSend(s, Message(base, Plain(bytes)))
    case HostInstall => s.(session := Some(FromHandshake(s.keyRequest, s.keyResponse)))
    case HostRequest(text) =>
      var (e, ct) := Seal(s.session.value, text);
      StartSend(s.(session := Some(e)), Message(ENCRYPTED_TRANSPORT, ct))
    case HostRead => HostReads(s)
    case HostTake => Deliver(s.(host := s.host.(pending := None)), s.host.pending.value.payload)
    case DeviceRead => DeviceReads(s)
    case DeviceAck =>
      s.(toHost := s.toHost + [Packet(Frame(AckFor(!s.device.expected), Plain([])), |s.device.accepted| - 1)])
    case DeviceReply(base, data) =>
      var s1 := WithReply(s, base, data);
      s1.(toHost := EmitReply(s1))
    case DeviceResend => s.(toHost := EmitReply(s))
    case Lose(i) => s.(toHost := s.toHost[..i] + s.toHost[i + 1..])
  }

  // ---- The invariant ----

  /** Device messages the host has accepted, delivered or still stashed. */
  function Taken<K>(s: System<K>): nat {
    |s.delivered| + if s.host.pending.Some? then 1 else 0
  }

  /** Sends the host has completed. */
  function Completed<K>(s: System<K>): int {
    |s.requests| - if s.phase.Sending? then 1 else 0
  }

  /** n requests sent, m replies taken, r requests accepted and t replies made by the device. */
  ghost predicate Counts(n: nat, m: nat, r: nat, t: nat, phase: Phase, stashed: bool) {
    && m <= t <= r <= n <= m + 1
    && (phase.Idle? ==> n == m && !stashed)
    && (phase.Sending? ==> n == m + 1 && !stashed)
    && (phase.Receiving? ==> (stashed <==> n == m))
    && !phase.Failed?
  }

  ghost predicate HostBits(sendSeq: bool, recvSeq: bool, completed: int, m: nat) {
    completed >= 0 && sendSeq == Parity(completed) && recvSeq == Parity(m)
  }

  ghost predicate DeviceBits<K>(d: Device<K>) {
    && d.expected == Parity(|d.accepted|)
    && (d.outstanding ==> d.replies != [] && |d.replies| == |d.accepted|)
    && d.sendSeq == Parity(|d.replies| - if d.outstanding then 1 else 0)
  }

  /** An acknowledgement of exchange e, or the device's e-th reply. */
  ghost predicate FromDevice<K>(p: Packet<K>, m: nat, r: nat, replies: seq<Message<K>>) {
    && m - 1 <= p.exchange < r
    && (p.frame.ctrl == AckFor(Parity(p.exchange))
        || (p.exchange < |replies|
            && p.frame == Frame(WithSeq(replies[p.exchange].base, Parity(p.exchange)), replies[p.exchange].body)))
  }

  ghost predicate ToHostOk<K>(q: seq<Packet<K>>, m: nat, r: nat, replies: seq<Message<K>>) {
    && (forall i :: 0 <= i < |q| ==> FromDevice(q[i], m, r, replies))
    && (forall i, j :: 0 <= i < j < |q| ==> q[i].exchange <= q[j].exchange)
  }

  ghost predicate IsRequest<K>(p: Packet<K>, r: nat, requests: seq<Message<K>>) {
    p.exchange == r < |requests| && p.frame == Frame(WithSeq(requests[r].base, Parity(r)), requests[r].body)
  }

  ghost predicate IsHostAck<K>(p: Packet<K>, n: nat, m: nat) {
    p.frame.ctrl == AckFor(Parity(p.exchange)) && n - 3 <= p.exchange < m
  }

  /** The request in flight, if any, is at position k; acknowledgements behind it are recent. */
  ghost predicate ToDeviceOk<K>(q: seq<Packet<K>>, k: nat, requests: seq<Message<K>>, m: nat, r: nat) {
    && k <= |q|
    && (k < |q| <==> r < |requests|)
    && (forall i :: 0 <= i < |q| && i != k ==> IsHostAck(q[i], |requests|, m))
    && (k < |q| ==> IsRequest(q[k], r, requests))
    && (forall i :: 0 <= i < |q| && (i > k || k == |q|) ==> q[i].exchange >= |requests| - 2)
  }

  /** The acknowledgement of exchange e waits ahead of position k. */
  ghost predicate AckWaiting<K>(q: seq<Packet<K>>, k: nat, e: int) {
    exists i :: 0 <= i < k && i < |q| && q[i].exchange == e
  }

  ghost predicate ToDeviceInv<K>(q: seq<Packet<K>>, k: nat, requests: seq<Message<K>>, m: nat, d: Device<K>) {
    && ToDeviceOk(q, k, requests, m, |d.accepted|)
    && (d.outstanding && m == |d.replies| ==> AckWaiting(q, k, |d.replies| - 1))
  }

  ghost predicate SealedAt<K>(m: Message<K>, key: K, first: u64, k: nat) {
    && IsDataBase(m.base)
    && (k < ROUNDS ==> m.body.Plain?)
    && (k >= ROUNDS ==> m.body.Sealed? && m.body.key == key && m.body.iv == IvFromNonce(NonceAfter(first, k - ROUNDS)))
  }

  ghost predicate AllSealed<K>(ms: seq<Message<K>>, key: K, first: u64) {
    forall k :: 0 <= k < |ms| ==> SealedAt(ms[k], key, first, k)
  }

  /** The bodies are the first ones of the messages, in order. */
  ghost predicate Prefix<K>(bodies: seq<Body<K>>, ms: seq<Message<K>>) {
    |bodies| <= |ms| && forall k :: 0 <= k < |bodies| ==> bodies[k] == ms[k].body
  }

  ghost predicate StashOk<K>(pending: Option<Frame<K>>, d: nat, replies: seq<Message<K>>) {
    pending.Some? ==> d < |replies| && pending.value.payload == replies[d].body
  }

  ghost predicate SessionOk<K>(session: Option<Endpoint<K>>, keyRequest: K, keyResponse: K, n: nat,
                               delivered: seq<Body<K>>, texts: seq<seq<u8>>) {
    match session
    case None => n <= ROUNDS && texts == []
    case Some(e) =>
      && n >= |delivered| >= ROUNDS
      && e == Endpoint(keyRequest, keyResponse, NonceAfter(0, n - ROUNDS), NonceAfter(1, |delivered| - ROUNDS))
      && |texts| == |delivered| - ROUNDS
      && (forall k :: 0 <= k < |texts| ==> delivered[k + ROUNDS].Sealed? && texts[k] == delivered[k + ROUNDS].text)
  }

  ghost predicate InvAt<K>(s: System<K>, k: nat) {
    && Counts(|s.requests|, Taken(s), |s.device.accepted|, |s.device.replies|, s.phase, s.host.pending.Some?)
    && HostBits(s.host.sendSeq, s.host.recvSeq, Completed(s), Taken(s))
    && DeviceBits(s.device)
    && (Taken(s) < |s.device.replies| ==> s.device.outstanding)
    && AllSealed(s.requests, s.keyRequest, 0)
    && AllSealed(s.device.replies, s.keyResponse, 1)
    && Prefix(s.device.accepted, s.requests)
    && Prefix(s.delivered, s.device.replies)
    && StashOk(s.host.pending, |s.delivered|, s.device.replies)
    && SessionOk(s.session, s.keyRequest, s.keyResponse, |s.requests|, s.delivered, s.texts)
    && ToHostOk(s.toHost, Taken(s), |s.device.accepted|, s.device.replies)
    && ToDeviceInv(s.toDevice, k, s.requests, Taken(s), s.device)
  }

  ghost predicate Inv<K>(s: System<K>) { exists k: nat :: InvAt(s, k) }

  // ---- Facts about the pieces ----

  lemma FrameBits(base: u8, e: nat)
    requires IsDataBase(base)
    ensures !Parity(e) == Parity(e + 1)
    ensures SeqOf(WithSeq(base, Parity(e))) == Parity(e) && !IsAck(WithSeq(base, Parity(e)))
    ensures IsAck(AckFor(Parity(e))) && AckSeqOf(AckFor(Parity(e))) == Parity(e)
  {
    BitsReadBack(base, Parity(e));
  }

  /** What the bits of a packet from the device say about its exchange. */
  lemma PacketBits<K>(p: Packet<K>, m: nat, r: nat, replies: seq<Message<K>>, key: K)
    requires FromDevice(p, m, r, replies) && AllSealed(replies, key, 1) && r <= m + 1
    ensures p.exchange == m || p.exchange == m - 1
    ensures Parity(p.exchange) == Parity(m) <==> p.exchange == m
    ensures IsAck(p.frame.ctrl) ==> AckSeqOf(p.frame.ctrl) == Parity(p.exchange)
    ensures !IsAck(p.frame.ctrl) ==> SeqOf(p.frame.ctrl) == Parity(p.exchange)
    ensures !IsAck(p.frame.ctrl) ==> p.exchange < |replies| && p.frame.payload == replies[p.exchange].body
  {
    FrameBits(0, p.exchange);
    if p.exchange < |replies| {
      assert SealedAt(replies[p.exchange], key, 1, p.exchange);
      FrameBits(replies[p.exchange].base, p.exchange);
    }
  }

  /** Taking the head off the host-bound queue, and counting it when it was the next reply. */
  lemma ToHostPopped<K>(q: seq<Packet<K>>, m: nat, m1: nat, r: nat, replies: seq<Message<K>>)
    requires q != [] && ToHostOk(q, m, r, replies)
    requires m1 == m || (m1 == m + 1 && q[0].exchange == m)
    ensures ToHostOk(q[1..], m1, r, replies)
  {
    forall i | 0 <= i < |q| - 1 ensures FromDevice(q[1..][i], m1, r, replies) {
      assert FromDevice(q[i + 1], m, r, replies) && q[0].exchange <= q[i + 1].exchange;
    }
  }

  /** Appending a packet of the newest exchange; replies may have grown. */
  lemma ToHostPushed<K>(q: seq<Packet<K>>, p: Packet<K>, m: nat, r: nat,
                        replies: seq<Message<K>>, replies1: seq<Message<K>>)
    requires ToHostOk(q, m, r, replies) && FromDevice(p, m, r, replies1) && p.exchange == r - 1
    requires |replies1| >= |replies| && (forall e :: 0 <= e < |replies| ==> replies1[e] == replies[e])
    ensures ToHostOk(q + [p], m, r, replies1)
  {
    forall i | 0 <= i < |q| ensures FromDevice(q[i], m, r, replies1) { assert FromDevice(q[i], m, r, replies); }
  }

  lemma ToHostGrows<K>(q: seq<Packet<K>>, m: nat, r: nat, replies: seq<Message<K>>)
    requires ToHostOk(q, m, r, replies)
    ensures ToHostOk(q, m, r + 1, replies)
  {
    forall i | 0 <= i < |q| ensures FromDevice(q[i], m, r + 1, replies) { assert FromDevice(q[i], m, r, replies); }
  }

  lemma ToHostSameWithReply<K>(q: seq<Packet<K>>, m: nat, r: nat, replies: seq<Message<K>>, reply: Message<K>)
    requires ToHostOk(q, m, r, replies)
    ensures ToHostOk(q, m, r, replies + [reply])
  {
    forall i | 0 <= i < |q| ensures FromDevice(q[i], m, r, replies + [reply]) { assert FromDevice(q[i], m, r, replies); }
  }

  lemma ToHostLoses<K>(q: seq<Packet<K>>, i: nat, m: nat, r: nat, replies: seq<Message<K>>)
    requires i < |q| && ToHostOk(q, m, r, replies)
    ensures ToHostOk(q[..i] + q[i + 1..], m, r, replies)
  {
    var q1 := q[..i] + q[i + 1..];
    forall j | 0 <= j < |q1| ensures FromDevice(q1[j], m, r, replies) {
      assert FromDevice(q[if j < i then j else j + 1], m, r, replies);
    }
  }

  /** Appending the next request, once the previous one was accepted. */
  lemma RequestPushed<K>(q: seq<Packet<K>>, k: nat, requests: seq<Message<K>>, m: nat, d: Device<K>,
                         msg: Message<K>, p: Packet<K>)
    requires ToDeviceInv(q, k, requests, m, d) && |d.accepted| == |requests|
    requires p == Packet(Frame(WithSeq(msg.base, Parity(|requests|)), msg.body), |requests|)
    ensures ToDeviceInv(q + [p], |q|, requests + [msg], m, d)
  {
    forall i | 0 <= i < |q| ensures IsHostAck((q + [p])[i], |requests| + 1, m) { assert IsHostAck(q[i], |requests|, m); }
    if AckWaiting(q, k, |d.replies| - 1) {
      var i :| 0 <= i < k && i < |q| && q[i].exchange == |d.replies| - 1;
      assert (q + [p])[i].exchange == |d.replies| - 1;
    }
  }

  /** The host appends its acknowledgement of a packet of exchange e. */
  lemma AckPushed<K>(q: seq<Packet<K>>, k: nat, requests: seq<Message<K>>, m: nat, d: Device<K>, e: nat, p: Packet<K>)
    returns (k1: nat)
    requires ToDeviceInv(q, k, requests, m, d) && p == Packet(Frame(AckFor(Parity(e)), Plain([])), e)
    requires |d.accepted| <= |requests| == m + 1 && e < |d.replies| <= |d.accepted| && (e == m || e == m - 1)
    ensures ToDeviceInv(q + [p], k1, requests, if e == m then m + 1 else m, d)
  {
    k1 := if k == |q| then k + 1 else k;
    var q1, m1 := q + [p], if e == m then m + 1 else m;
    forall i | 0 <= i < |q1| && i != k1 ensures IsHostAck(q1[i], |requests|, m1) {
      if i < |q| { assert IsHostAck(q[i], |requests|, m); }
    }
    if d.outstanding && m1 == |d.replies| {
      if e == m {
        assert q1[|q|].exchange == |d.replies| - 1;
      } else {
        var i :| 0 <= i < k && i < |q| && q[i].exchange == |d.replies| - 1;
        assert q1[i].exchange == |d.replies| - 1;
      }
    }
  }

  /** The device takes an acknowledgement off the queue. */
  lemma AckPopped<K>(q: seq<Packet<K>>, k: nat, requests: seq<Message<K>>, m: nat, d: Device<K>, d1: Device<K>)
    requires ToDeviceInv(q, k, requests, m, d) && k > 0 && q != []
    requires d1.accepted == d.accepted && d1.replies == d.replies
    requires d1.outstanding ==> d.outstanding && q[0].exchange != |d.replies| - 1
    ensures ToDeviceInv(q[1..], k - 1, requests, m, d1)
  {
    var q1 := q[1..];
    forall i | 0 <= i < |q1| && i != k - 1 ensures IsHostAck(q1[i], |requests|, m) {
      assert IsHostAck(q[i + 1], |requests|, m);
    }
    if d1.outstanding && m == |d.replies| {
      var i :| 0 <= i < k && i < |q| && q[i].exchange == |d.replies| - 1;
      assert q1[i - 1].exchange == |d.replies| - 1;
    }
  }

  /** The device takes the request off the queue. */
  lemma RequestPopped<K>(q: seq<Packet<K>>, requests: seq<Message<K>>, m: nat, d: Device<K>, d1: Device<K>)
    requires ToDeviceInv(q, 0, requests, m, d) && q != [] && |requests| == |d.accepted| + 1
    requires |d1.accepted| == |d.accepted| + 1 && !d1.outstanding
    ensures ToDeviceInv(q[1..], |q| - 1, requests, m, d1)
  {
    forall i | 0 <= i < |q| - 1 ensures IsHostAck(q[1..][i], |requests|, m) { assert IsHostAck(q[i + 1], |requests|, m); }
  }

  /** Delivering the device's next reply opens it and keeps the session in step. */
  lemma DeliverOpens<K>(s: System<K>, body: Body<K>)
    requires SessionOk(s.session, s.keyRequest, s.keyResponse, |s.requests|, s.delivered, s.texts)
    requires AllSealed(s.device.replies, s.keyResponse, 1) && Prefix(s.delivered, s.device.replies)
    requires |s.delivered| < |s.device.replies| && body == s.device.replies[|s.delivered|].body
    requires |s.delivered| < |s.requests|
    ensures var s1 := Deliver(s, body);
            && s1 == s.(delivered := s.delivered + [body], phase := Idle, session := s1.session, texts := s1.texts)
            && SessionOk(s1.session, s.keyRequest, s.keyResponse, |s.requests|, s1.delivered, s1.texts)
            && Prefix(s1.delivered, s.device.replies)
  {
    var d := |s.delivered|;
    if s.session.Some? {
      assert SealedAt(s.device.replies[d], s.keyResponse, 1, d);
    }
  }

  // ---- Every step keeps the invariant ----

  lemma InitialInv<K>(keyRequest: K, keyResponse: K)
    ensures Inv(Initial(keyRequest, keyResponse))
  {
    assert InvAt(Initial(keyRequest, keyResponse), 0);
  }

  /** Starting a send, whatever the message. */
  lemma StartSendKeeps<K(!new)>(s0: System<K>, k: nat, m: Message<K>, session: Option<Endpoint<K>>)
    requires InvAt(s0, k) && s0.phase.Idle? && SealedAt(m, s0.keyRequest, 0, |s0.requests|)
    requires SessionOk(session, s0.keyRequest, s0.keyResponse, |s0.requests| + 1, s0.delivered, s0.texts)
    ensures Inv(StartSend(s0.(session := session), m))
  {
    var s := StartSend(s0.(session := session), m);
    FrameBits(m.base, |s0.requests|);
    RequestPushed(s0.toDevice, k, s0.requests, Taken(s0), s0.device, m, s.toDevice[|s0.toDevice|]);
    assert InvAt(s, |s0.toDevice|);
  }

  lemma HandshakeKeeps<K(!new)>(s: System<K>, base: u8, bytes: seq<u8>)
    requires Inv(s) && Enabled(s, HostHandshake(base, bytes))
    ensures Inv(Apply(s, HostHandshake(base, bytes)))
  {
    var k: nat :| InvAt(s, k);
    assert s.(session := s.session) == s;
    StartSendKeeps(s, k, Message(base, Plain(bytes)), s.session);
  }

  lemma RequestKeeps<K(!new)>(s: System<K>, text: seq<u8>)
    requires Inv(s) && Enabled(s, HostRequest(text))
    ensures Inv(Apply(s, HostRequest(text)))
  {
    var k: nat :| InvAt(s, k);
    var (e, ct) := Seal(s.session.value, text);
    StartSendKeeps(s, k, Message(ENCRYPTED_TRANSPORT, ct), Some(e));
  }

  lemma InstallKeeps<K(!new)>(s: System<K>)
    requires Inv(s) && Enabled(s, HostInstall)
    ensures Inv(Apply(s, HostInstall))
  {
    var k: nat :| InvAt(s, k);
    assert InvAt(Apply(s, HostInstall), k);
  }

  lemma TakeKeeps<K(!new)>(s: System<K>)
    requires Inv(s) && Enabled(s, HostTake)
    ensures Inv(Apply(s, HostTake))
  {
    var k: nat :| InvAt(s, k);
    DeliverOpens(s.(host := s.host.(pending := None)), s.host.pending.value.payload);
    assert InvAt(Apply(s, HostTake), k);
  }

  /** The outcomes of reading while waiting for an acknowledgement. */
  lemma SendReadShape<K(!new)>(s: System<K>)
    requires s.phase.Sending? && s.toHost != [] && s.host.pending.None?
    requires |s.device.accepted| <= |s.requests| == Taken(s) + 1
    requires HostBits(s.host.sendSeq, s.host.recvSeq, Completed(s), Taken(s))
    requires AllSealed(s.device.replies, s.keyResponse, 1)
    requires FromDevice(s.toHost[0], Taken(s), |s.device.accepted|, s.device.replies)
    ensures var p, m := s.toHost[0], Taken(s);
            var read := s.(toHost := s.toHost[1..]);
            HostReads(s) ==
              if IsAck(p.frame.ctrl) then
                if p.exchange == m then read.(phase := Receiving, host := s.host.(sendSeq := Parity(m + 1))) else read
              else
                read.(phase := Receiving,
                      toDevice := s.toDevice + [Packet(Frame(AckFor(Parity(p.exchange)), Plain([])), p.exchange)],
                      host := if p.exchange == m then Host(Parity(m + 1), Parity(m + 1), Some(p.frame))
                              else s.host.(sendSeq := Parity(m + 1)))
  {
    PacketBits(s.toHost[0], Taken(s), |s.device.accepted|, s.device.replies, s.keyResponse);
    FrameBits(0, Taken(s));
  }

  /** Only the host-bound queue changes. */
  lemma ToHostReplaced<K(!new)>(s: System<K>, k: nat, q: seq<Packet<K>>)
    requires InvAt(s, k) && ToHostOk(q, Taken(s), |s.device.accepted|, s.device.replies)
    ensures InvAt(s.(toHost := q), k)
  {
  }

  /** The next reply was delivered, with its acknowledgement on the queue. */
  lemma FreshDelivered<K(!new)>(s: System<K>, s1: System<K>, k1: nat)
    requires s.phase.Receiving? && s.host.pending.None? && |s.requests| == Taken(s) + 1 && s1.phase.Idle?
    requires Counts(|s.requests|, Taken(s), |s.device.accepted|, |s.device.replies|, s.phase, false)
    requires Taken(s) < |s.device.replies|
    requires HostBits(s.host.sendSeq, s.host.recvSeq, Completed(s), Taken(s)) && DeviceBits(s.device)
    requires AllSealed(s.requests, s.keyRequest, 0) && AllSealed(s.device.replies, s.keyResponse, 1)
    requires Prefix(s.device.accepted, s.requests)
    requires s1 == s.(phase := Idle, toHost := s1.toHost, toDevice := s1.toDevice, session := s1.session, texts := s1.texts,
                      delivered := s1.delivered, host := s.host.(recvSeq := Parity(Taken(s) + 1)))
    requires |s1.delivered| == |s.delivered| + 1 && Prefix(s1.delivered, s.device.replies)
    requires SessionOk(s1.session, s.keyRequest, s.keyResponse, |s.requests|, s1.delivered, s1.texts)
    requires ToHostOk(s1.toHost, Taken(s) + 1, |s.device.accepted|, s.device.replies)
    requires ToDeviceInv(s1.toDevice, k1, s.requests, Taken(s) + 1, s.device)
    ensures InvAt(s1, k1)
  {
  }

  lemma HeadDropped<K(!new)>(s: System<K>, k: nat)
    requires InvAt(s, k) && s.toHost != []
    ensures InvAt(s.(toHost := s.toHost[1..]), k)
  {
    ToHostPopped(s.toHost, Taken(s), Taken(s), |s.device.accepted|, s.device.replies);
    ToHostReplaced(s, k, s.toHost[1..]);
  }

  lemma SendReadAck<K(!new)>(s: System<K>, k: nat)
    requires InvAt(s, k) && s.phase.Sending?
    ensures InvAt(s.(phase := Receiving, host := s.host.(sendSeq := Parity(Taken(s) + 1))), k)
  {
  }

  lemma SendReadFresh<K(!new)>(s: System<K>, k: nat, p: Packet<K>, ack: Packet<K>)
    requires InvAt(s, k) && s.phase.Sending? && s.toHost != [] && p == s.toHost[0]
    requires p.exchange == Taken(s) < |s.device.replies| && p.frame.payload == s.device.replies[Taken(s)].body
    requires ack == Packet(Frame(AckFor(Parity(p.exchange)), Plain([])), p.exchange)
    ensures Inv(s.(toHost := s.toHost[1..], toDevice := s.toDevice + [ack], phase := Receiving,
                   host := Host(Parity(Taken(s) + 1), Parity(Taken(s) + 1), Some(p.frame))))
  {
    var m := Taken(s);
    var s1 := s.(toHost := s.toHost[1..], toDevice := s.toDevice + [ack], phase := Receiving,
                 host := Host(Parity(m + 1), Parity(m + 1), Some(p.frame)));
    var k1 := AckPushed(s.toDevice, k, s.requests, m, s.device, m, ack);
    ToHostPopped(s.toHost, m, m + 1, |s.device.accepted|, s.device.replies);
    assert InvAt(s1, k1);
  }

  lemma SendReadAgain<K(!new)>(s: System<K>, k: nat, e: nat, ack: Packet<K>)
    requires InvAt(s, k) && s.phase.Sending? && s.toHost != []
    requires e == Taken(s) - 1 && e < |s.device.replies|
    requires ack == Packet(Frame(AckFor(Parity(e)), Plain([])), e)
    ensures Inv(s.(toHost := s.toHost[1..], toDevice := s.toDevice + [ack], phase := Receiving,
                   host := s.host.(sendSeq := Parity(Taken(s) + 1))))
  {
    var m := Taken(s);
    var s1 := s.(toHost := s.toHost[1..], toDevice := s.toDevice + [ack], phase := Receiving,
                 host := s.host.(sendSeq := Parity(m + 1)));
    var k1 := AckPushed(s.toDevice, k, s.requests, m, s.device, e, ack);
    ToHostPopped(s.toHost, m, m, |s.device.accepted|, s.device.replies);
    assert InvAt(s1, k1);
  }

  lemma SendReadKeeps<K(!new)>(s: System<K>, k: nat)
    requires InvAt(s, k) && s.phase.Sending? && s.toHost != []
    ensures Inv(HostReads(s))
  {
    var p, m := s.toHost[0], Taken(s);
    var ack := Packet(Frame(AckFor(Parity(p.exchange)), Plain([])), p.exchange);
    PacketBits(p, m, |s.device.accepted|, s.device.replies, s.keyResponse);
    SendReadShape(s);
    if IsAck(p.frame.ctrl) {
      HeadDropped(s, k);
      if p.exchange == m { SendReadAck(s.(toHost := s.toHost[1..]), k); }
    } else if p.exchange == m {
      SendReadFresh(s, k, p, ack);
    } else {
      SendReadAgain(s, k, p.exchange, ack);
    }
  }

  /** The outcomes of reading while waiting for data. */
  lemma RecvReadShape<K(!new)>(s: System<K>)
    requires s.phase.Receiving? && s.toHost != [] && s.host.pending.None?
    requires |s.device.accepted| <= |s.requests| == Taken(s) + 1
    requires HostBits(s.host.sendSeq, s.host.recvSeq, Completed(s), Taken(s))
    requires AllSealed(s.device.replies, s.keyResponse, 1)
    requires FromDevice(s.toHost[0], Taken(s), |s.device.accepted|, s.device.replies)
    ensures var p, m := s.toHost[0], Taken(s);
            var read := s.(toHost := s.toHost[1..]);
            var acked := read.(toDevice := s.toDevice + [Packet(Frame(AckFor(Parity(p.exchange)), Plain([])), p.exchange)]);
            HostReads(s) ==
              if IsAck(p.frame.ctrl) then read
              else if p.exchange == m then Deliver(acked.(host := s.host.(recvSeq := Parity(m + 1))), p.frame.payload)
              else acked
  {
    PacketBits(s.toHost[0], Taken(s), |s.device.accepted|, s.device.replies, s.keyResponse);
    FrameBits(0, Taken(s));
  }

  lemma RecvReadFresh<K(!new)>(s: System<K>, k: nat, p: Packet<K>, ack: Packet<K>)
    requires InvAt(s, k) && s.phase.Receiving? && s.host.pending.None? && s.toHost != [] && p == s.toHost[0]
    requires p.exchange == Taken(s) < |s.device.replies| && p.frame.payload == s.device.replies[Taken(s)].body
    requires ack == Packet(Frame(AckFor(Parity(p.exchange)), Plain([])), p.exchange)
    ensures Inv(Deliver(s.(toHost := s.toHost[1..], toDevice := s.toDevice + [ack],
                           host := s.host.(recvSeq := Parity(Taken(s) + 1))), p.frame.payload))
  {
    var m := Taken(s);
    var read := s.(toHost := s.toHost[1..], toDevice := s.toDevice + [ack], host := s.host.(recvSeq := Parity(m + 1)));
    DeliverOpens(read, p.frame.payload);
    var k1 := AckPushed(s.toDevice, k, s.requests, m, s.device, m, ack);
    ToHostPopped(s.toHost, m, m + 1, |s.device.accepted|, s.device.replies);
    FreshDelivered(s, Deliver(read, p.frame.payload), k1);
  }

  lemma RecvReadAgain<K(!new)>(s: System<K>, k: nat, e: nat, ack: Packet<K>)
    requires InvAt(s, k) && s.phase.Receiving? && s.host.pending.None? && s.toHost != []
    requires e == Taken(s) - 1 && e < |s.device.replies|
    requires ack == Packet(Frame(AckFor(Parity(e)), Plain([])), e)
    ensures Inv(s.(toHost := s.toHost[1..], toDevice := s.toDevice + [ack]))
  {
    var s1 := s.(toHost := s.toHost[1..], toDevice := s.toDevice + [ack]);
    var k1 := AckPushed(s.toDevice, k, s.requests, Taken(s), s.device, e, ack);
    ToHostPopped(s.toHost, Taken(s), Taken(s), |s.device.accepted|, s.device.replies);
    assert InvAt(s1, k1);
  }

  lemma RecvReadKeeps<K(!new)>(s: System<K>, k: nat)
    requires InvAt(s, k) && s.phase.Receiving? && s.host.pending.None? && s.toHost != []
    ensures Inv(HostReads(s))
  {
    var p, m := s.toHost[0], Taken(s);
    var ack := Packet(Frame(AckFor(Parity(p.exchange)), Plain([])), p.exchange);
    PacketBits(p, m, |s.device.accepted|, s.device.replies, s.keyResponse);
    RecvReadShape(s);
    if IsAck(p.frame.ctrl) {
      HeadDropped(s, k);
    } else if p.exchange == m {
      RecvReadFresh(s, k, p, ack);
    } else {
      RecvReadAgain(s, k, p.exchange, ack);
    }
  }

  /** A request arrives only after the previous reply was acknowledged, and is never a duplicate. */
  lemma RequestShape<K(!new)>(s: System<K>)
    requires InvAt(s, 0) && s.toDevice != []
    ensures !s.device.outstanding && |s.device.accepted| < |s.requests|
    ensures var r := |s.device.accepted|;
            DeviceReads(s) == s.(toDevice := s.toDevice[1..],
                                 device := s.device.(accepted := s.device.accepted + [s.requests[r].body],
                                                     expected := Parity(r + 1)))
  {
    var r := |s.device.accepted|;
    assert SealedAt(s.requests[r], s.keyRequest, 0, r);
    FrameBits(s.requests[r].base, r);
  }

  lemma DeviceAcceptsRequest<K(!new)>(s: System<K>)
    requires InvAt(s, 0) && s.toDevice != []
    ensures Inv(DeviceReads(s))
  {
    var r, s1 := |s.device.accepted|, DeviceReads(s);
    RequestShape(s);
    RequestPopped(s.toDevice, s.requests, Taken(s), s.device, s1.device);
    ToHostGrows(s.toHost, Taken(s), r, s.device.replies);
    assert InvAt(s1, |s.toDevice| - 1);
  }

  /** An acknowledgement matches the outstanding reply exactly when it belongs to it. */
  lemma DeviceAckShape<K(!new)>(s: System<K>, k: nat)
    requires DeviceBits(s.device) && ToDeviceInv(s.toDevice, k, s.requests, Taken(s), s.device) && s.toDevice != [] && k > 0
    requires Taken(s) <= |s.device.replies| <= |s.device.accepted| <= |s.requests| <= Taken(s) + 1
    ensures var t, e := |s.device.replies|, s.toDevice[0].exchange;
            DeviceReads(s) == s.(toDevice := s.toDevice[1..],
                                 device := if s.device.outstanding && e == t - 1
                                           then s.device.(outstanding := false, sendSeq := Parity(t))
                                           else s.device)
  {
    var p, t := s.toDevice[0], |s.device.replies|;
    assert IsHostAck(p, |s.requests|, Taken(s));
    FrameBits(0, p.exchange);
    if t > 0 { FrameBits(0, t - 1); }
  }

  /** Only the device's bits and the queue to it change. */
  lemma DeviceSwapped<K(!new)>(s: System<K>, k: nat, q: seq<Packet<K>>, d1: Device<K>, k1: nat)
    requires InvAt(s, k) && d1.accepted == s.device.accepted && d1.replies == s.device.replies
    requires DeviceBits(d1) && (Taken(s) < |d1.replies| ==> d1.outstanding)
    requires ToDeviceInv(q, k1, s.requests, Taken(s), d1)
    ensures Inv(s.(toDevice := q, device := d1))
  {
    hide Counts, HostBits, DeviceBits, ToDeviceInv, ToHostOk, AllSealed, Prefix, StashOk, SessionOk;
    assert InvAt(s.(toDevice := q, device := d1), k1);
  }

  lemma DeviceReadsAck<K(!new)>(s: System<K>, k: nat)
    requires InvAt(s, k) && s.toDevice != [] && k > 0
    ensures Inv(DeviceReads(s))
  {
    var d1 := DeviceReads(s).device;
    DeviceAckShape(s, k);
    AckPopped(s.toDevice, k, s.requests, Taken(s), s.device, d1);
    assert IsHostAck(s.toDevice[0], |s.requests|, Taken(s));
    DeviceSwapped(s, k, s.toDevice[1..], d1, k - 1);
  }

  /** The device sends a packet of its newest exchange. */
  lemma DeviceSends<K(!new)>(s: System<K>, k: nat, p: Packet<K>)
    requires InvAt(s, k) && p.exchange == |s.device.accepted| - 1
    requires FromDevice(p, Taken(s), |s.device.accepted|, s.device.replies)
    ensures Inv(s.(toHost := s.toHost + [p]))
  {
    ToHostPushed(s.toHost, p, Taken(s), |s.device.accepted|, s.device.replies, s.device.replies);
    ToHostReplaced(s, k, s.toHost + [p]);
  }

  lemma DeviceAckKeeps<K(!new)>(s: System<K>)
    requires Inv(s) && Enabled(s, DeviceAck)
    ensures Inv(Apply(s, DeviceAck))
  {
    var k: nat :| InvAt(s, k);
    var r := |s.device.accepted|;
    FrameBits(0, r - 1);
    DeviceSends(s, k, Packet(Frame(AckFor(!s.device.expected), Plain([])), r - 1));
  }

  /** A new reply, before it is put on the queue. */
  lemma ReplyMade<K(!new)>(s: System<K>, k: nat, base: u8, data: seq<u8>)
    requires InvAt(s, k) && Enabled(s, DeviceReply(base, data))
    ensures InvAt(WithReply(s, base, data), k)
  {
    ToHostSameWithReply(s.toHost, Taken(s), |s.device.accepted|, s.device.replies, ReplyMessage(s, base, data));
  }

  /** Sending, or sending again, the newest reply. */
  lemma ResendKeeps<K(!new)>(s: System<K>, k: nat)
    requires InvAt(s, k) && Enabled(s, DeviceResend)
    ensures Inv(s.(toHost := EmitReply(s)))
  {
    var t := |s.device.replies|;
    var m := s.device.replies[t - 1];
    DeviceSends(s, k, Packet(Frame(WithSeq(m.base, s.device.sendSeq), m.body), t - 1));
  }

  lemma ReplyKeeps<K(!new)>(s: System<K>, base: u8, data: seq<u8>)
    requires Inv(s) && Enabled(s, DeviceReply(base, data))
    ensures Inv(Apply(s, DeviceReply(base, data)))
  {
    var k: nat :| InvAt(s, k);
    ReplyMade(s, k, base, data);
    ResendKeeps(WithReply(s, base, data), k);
  }

  lemma LoseKeeps<K(!new)>(s: System<K>, k: nat, i: nat)
    requires InvAt(s, k) && i < |s.toHost|
    ensures Inv(s.(toHost := s.toHost[..i] + s.toHost[i + 1..]))
  {
    ToHostLoses(s.toHost, i, Taken(s), |s.device.accepted|, s.device.replies);
    ToHostReplaced(s, k, s.toHost[..i] + s.toHost[i + 1..]);
  }

  lemma StepKeepsInv<K(!new)>(s: System<K>, step: Step)
    requires Inv(s) && Enabled(s, step)
    ensures Inv(Apply(s, step))
  {
    var k: nat :| InvAt(s, k);
    match step
    case HostHandshake(base, bytes) => HandshakeKeeps(s, base, bytes);
    case HostInstall => InstallKeeps(s);
    case HostRequest(text) => RequestKeeps(s, text);
    case HostRead => if s.phase.Sending? { SendReadKeeps(s, k); } else { RecvReadKeeps(s, k); }
    case HostTake => TakeKeeps(s);
    case DeviceRead => if k == 0 { DeviceAcceptsRequest(s); } else { DeviceReadsAck(s, k); }
    case DeviceAck => DeviceAckKeeps(s);
    case DeviceReply(base, data) => ReplyKeeps(s, base, data);
    case DeviceResend => ResendKeeps(s, k);
    case Lose(i) => LoseKeeps(s, k, i);
  }
}
