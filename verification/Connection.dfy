/** The connection driver: the Alternating Bit Protocol host over framed messages. */
module Connection {
  import opened Results
  import opened Words
  import opened Control
  import opened Session

  /** A reassembled transport message: its control byte and its payload. */
  datatype Frame<K> = Frame(ctrl: u8, payload: Body<K>)

  /** The protocol state of the host end. */
  datatype Host<K> = Host(sendSeq: bool, recvSeq: bool, pending: Option<Frame<K>>)

  // ---- One frame at a time ----

  /** A frame read while waiting for an acknowledgement: new state, acknowledgement owed, finished. */
  function SendStep<K>(h: Host<K>, f: Frame<K>): (Host<K>, Option<bool>, bool) {
    if IsAck(f.ctrl) then
      if AckSeqOf(f.ctrl) == h.sendSeq then (h.(sendSeq := !h.sendSeq), None, true)
      else (h, None, false)
    else
      var s := SeqOf(f.ctrl);
      var h1 := h.(sendSeq := !h.sendSeq);
      (if s == h.recvSeq then h1.(recvSeq := !h.recvSeq, pending := Some(f)) else h1, Some(s), true)
  }

  /** A frame read while waiting for data: new state, acknowledgement owed, data accepted. */
  function RecvStep<K>(h: Host<K>, f: Frame<K>): (Host<K>, Option<bool>, bool) {
    if IsAck(f.ctrl) then (h, None, false)
    else
      var s := SeqOf(f.ctrl);
      if s == h.recvSeq then (h.(recvSeq := !h.recvSeq), Some(s), true) else (h, Some(s), false)
  }

  // ---- The whole driver on values ----

  const MSG_FAILURE: u16 := 3
  const MSG_BUTTON_REQUEST: u16 := 26
  const MSG_BUTTON_ACK: u16 := 27
  const MSG_SUCCESS: u16 := 2
  const MSG_CREATE_NEW_SESSION: u16 := 1000
  const SEEDED_SESSION_ID: u8 := 1

  /** Everything a connection holds, with the frames the transport will deliver and has taken. */
  datatype Conn<K> = Conn(host: Host<K>, session: Option<Endpoint<K>>, activeSessionId: u8,
                          inbox: seq<Frame<K>>, outbox: seq<Frame<K>>)

  function Acked<K>(out: seq<Frame<K>>, ack: Option<bool>): seq<Frame<K>> {
    if ack.Some? then out + [Frame(AckFor(ack.value), Plain([]))] else out
  }

  function SendWait<K>(c: Conn<K>): (r: (Conn<K>, bool))
    ensures Measure(r.0) <= Measure(c)
    ensures r.0.session == c.session && r.0.activeSessionId == c.activeSessionId
    decreases |c.inbox|
  {
    if c.inbox == [] then (c, false)
    else
      var f, c1 := c.inbox[0], c.(inbox := c.inbox[1..]);
      if f.ctrl == TRANSPORT_ERROR then (c1, false)
      else
        var (h, ack, done) := SendStep(c.host, f);
        var c2 := c1.(host := h, outbox := Acked(c.outbox, ack));
        if done then (c2, true) else SendWait(c2)
  }

  function SendData<K>(c: Conn<K>, base: u8, payload: Body<K>): (r: (Conn<K>, bool))
    ensures Measure(r.0) <= Measure(c)
    ensures r.0.session == c.session && r.0.activeSessionId == c.activeSessionId
  {
    SendWait(c.(outbox := c.outbox + [Frame(WithSeq(base, c.host.sendSeq), payload)]))
  }

  function RecvWait<K>(c: Conn<K>): (r: (Conn<K>, Option<Frame<K>>))
    requires c.host.pending.None?
    ensures r.1.Some? ==> Measure(r.0) < Measure(c)
    ensures r.0.session == c.session && r.0.activeSessionId == c.activeSessionId
    decreases |c.inbox|
  {
    if c.inbox == [] then (c, None)
    else
      var f, c1 := c.inbox[0], c.(inbox := c.inbox[1..]);
      if f.ctrl == TRANSPORT_ERROR then (c1, None)
      else
        var (h, ack, done) := RecvStep(c.host, f);
        var c2 := c1.(host := h, outbox := Acked(c.outbox, ack));
        if done then (c2, Some(f)) else RecvWait(c2)
  }

  function RecvData<K>(c: Conn<K>): (r: (Conn<K>, Option<Frame<K>>))
    ensures r.1.Some? ==> Measure(r.0) < Measure(c)
    ensures r.0.session == c.session && r.0.activeSessionId == c.activeSessionId
  {
    if c.host.pending.Some? then (c.(host := c.host.(pending := None)), c.host.pending) else RecvWait(c)
  }

  /** Frames still to be consumed; every successful receive lowers it. */
  function Measure<K>(c: Conn<K>): nat {
    |c.inbox| + if c.host.pending.Some? then 1 else 0
  }

  function SendApp<K>(c: Conn<K>, messageType: u16, protobuf: seq<u8>): (r: (Conn<K>, bool))
    ensures Measure(r.0) <= Measure(c)
  {
    if c.session.None? then (c, false)
    else
      var (e, ct) := Seal(c.session.value, EncodeAppMessage(c.activeSessionId, messageType, protobuf));
      SendData(c.(session := Some(e)), ENCRYPTED_TRANSPORT, ct)
  }

  function RecvApp<K(==)>(c: Conn<K>): (r: (Conn<K>, Result<(u16, seq<u8>)>))
    ensures r.1.Ok? ==> Measure(r.0) < Measure(c)
  {
    var (c1, f) := RecvData(c);
    if f.None? || c1.session.None? then (c1, Err)
    else
      var (e, pt) := Open(c1.session.value, f.value.payload);
      var c2 := c1.(session := Some(e));
      if pt.Err? then (c2, Err)
      else match DecodeAppMessage(pt.value)
        case Err => (c2, Err)
        case Ok(m) => (c2, Ok((m.1, m.2)))
  }

  /** Button requests are answered until another message, or a failure, arrives. */
  function AwaitReply<K(==)>(c: Conn<K>, buttonAck: seq<u8>): (Conn<K>, Result<(u16, seq<u8>)>)
    decreases Measure(c)
  {
    var (c1, r) := RecvApp(c);
    if r.Err? then (c1, Err)
    else if r.value.0 == MSG_BUTTON_REQUEST then
      var (c2, ok) := SendApp(c1, MSG_BUTTON_ACK, buttonAck);
      if ok then AwaitReply(c2, buttonAck) else (c2, Err)
    else if r.value.0 == MSG_FAILURE then (c1, Err)
    else (c1, r)
  }

  function Transceive<K(==)>(c: Conn<K>, messageType: u16, protobuf: seq<u8>, buttonAck: seq<u8>)
    : (Conn<K>, Result<(u16, seq<u8>)>)
  {
    var (c1, ok) := SendApp(c, messageType, protobuf);
    if ok then AwaitReply(c1, buttonAck) else (c1, Err)
  }

  /** Waiting for an acknowledgement, one frame further. */
  lemma SendWaitReads<K>(c: Conn<K>)
    ensures SendWait(c)
      == if c.inbox == [] then (c, false)
         else if c.inbox[0].ctrl == TRANSPORT_ERROR then (c.(inbox := c.inbox[1..]), false)
         else
           var (h, ack, done) := SendStep(c.host, c.inbox[0]);
           var c1 := c.(inbox := c.inbox[1..], host := h, outbox := Acked(c.outbox, ack));
           if done then (c1, true) else SendWait(c1)
  {
  }

  lemma SendStepCases<K>(h: Host<K>, f: Frame<K>)
    ensures IsAck(f.ctrl) && AckSeqOf(f.ctrl) == h.sendSeq ==> SendStep(h, f) == (h.(sendSeq := !h.sendSeq), None, true)
    ensures IsAck(f.ctrl) && AckSeqOf(f.ctrl) != h.sendSeq ==> SendStep(h, f) == (h, None, false)
    ensures !IsAck(f.ctrl) && SeqOf(f.ctrl) != h.recvSeq ==>
      SendStep(h, f) == (h.(sendSeq := !h.sendSeq), Some(SeqOf(f.ctrl)), true)
    ensures !IsAck(f.ctrl) && SeqOf(f.ctrl) == h.recvSeq ==>
      SendStep(h, f) == (Host(!h.sendSeq, !h.recvSeq, Some(f)), Some(SeqOf(f.ctrl)), true)
  {
  }

  /** Waiting for data, one frame further. */
  lemma RecvWaitReads<K>(c: Conn<K>)
    requires c.host.pending.None?
    ensures RecvWait(c)
      == if c.inbox == [] then (c, None)
         else if c.inbox[0].ctrl == TRANSPORT_ERROR then (c.(inbox := c.inbox[1..]), None)
         else
           var (h, ack, done) := RecvStep(c.host, c.inbox[0]);
           var c1 := c.(inbox := c.inbox[1..], host := h, outbox := Acked(c.outbox, ack));
           if done then (c1, Some(c.inbox[0])) else RecvWait(c1)
  {
  }

  // ---- What the driver says ----

  lemma {:induction false} SendWaitSays<K>(c: Conn<K>)
    ensures c.outbox <= SendWait(c).0.outbox
    decreases |c.inbox|
  {
    if c.inbox != [] && c.inbox[0].ctrl != TRANSPORT_ERROR {
      var (h, ack, done) := SendStep(c.host, c.inbox[0]);
      SendWaitSays(c.(inbox := c.inbox[1..], host := h, outbox := Acked(c.outbox, ack)));
    }
  }

  /** The frame an application message goes out in. */
  lemma AppMessageOnTheLink<K>(c: Conn<K>, messageType: u16, protobuf: seq<u8>)
    requires c.session.Some?
    ensures |SendApp(c, messageType, protobuf).0.outbox| > |c.outbox|
    ensures var f, e := SendApp(c, messageType, protobuf).0.outbox[|c.outbox|], c.session.value;
      f.ctrl == (if c.host.sendSeq then 0x14 else 0x04)
      && f.payload == Sealed(e.keySend, IvFromNonce(e.nonceSend),
                             [c.activeSessionId, (messageType as int / 256) as u8, (messageType as int % 256) as u8]
                             + protobuf)
  {
    AppMessageIsWritten(c.activeSessionId, messageType, protobuf);
    ControlBytes(0);
    var (e, ct) := Seal(c.session.value, EncodeAppMessage(c.activeSessionId, messageType, protobuf));
    var f := Frame(WithSeq(ENCRYPTED_TRANSPORT, c.host.sendSeq), ct);
    SendWaitSays(c.(session := Some(e), outbox := c.outbox + [f]));
  }

  /** An error report ends every wait, and so does a link that has nothing more to deliver. */
  lemma WaitsEnd<K>(c: Conn<K>)
    requires c.inbox == [] || c.inbox[0].ctrl == 0x42
    ensures SendWait(c) == (c.(inbox := if c.inbox == [] then [] else c.inbox[1..]), false)
    ensures c.host.pending.None? ==> RecvData(c) == (c.(inbox := if c.inbox == [] then [] else c.inbox[1..]), None)
  {
  }

  /** Which messages are answered, and how: 26 is a button request, its acknowledgement is 27, and 3 is a failure. */
  lemma RepliesAreNumbered<K>(c: Conn<K>, buttonAck: seq<u8>)
    requires RecvApp(c).1.Ok?
    ensures var (c1, r) := RecvApp(c);
      AwaitReply(c, buttonAck)
      == if r.value.0 == 3 then (c1, Err)
         else if r.value.0 != 26 then (c1, r)
         else
           var (c2, ok) := SendApp(c1, 27, buttonAck);
           if ok then AwaitReply(c2, buttonAck) else (c2, Err)
  {
  }

  // ---- The driver as the source runs it ----

  class Driver<K(==)> {
    var sendSeq: bool
    var recvSeq: bool
    var pendingData: Option<Frame<K>>
    var session: Option<Endpoint<K>>
    var activeSessionId: u8
    /** Passphrase and on-device entry of the wallet that the seeded session was created for. */
    var seededWith: Option<(Option<string>, bool)>
    /** Frames the transport will deliver, and frames handed to it. */
    var inbox: seq<Frame<K>>
    var outbox: seq<Frame<K>>

    ghost function State(): Conn<K>
      reads this
    {
      Conn(Host(sendSeq, recvSeq, pendingData), session, activeSessionId, inbox, outbox)
    }

    constructor (inbox: seq<Frame<K>>)
      ensures State() == Conn(Host(false, false, None), None, 0, inbox, []) && seededWith.None?
    {
      seededWith := None;
      sendSeq, recvSeq, pendingData, session, activeSessionId := false, false, None, None, 0;
      this.inbox := inbox;
      outbox := [];
    }

    /** The next frame, or nothing when the transport fails or the device reports an error. */
    method ReadFramed() returns (f: Option<Frame<K>>)
      modifies this`inbox
      ensures f.Some? <==> old(inbox) != [] && old(inbox)[0].ctrl != TRANSPORT_ERROR
      ensures f.Some? ==> f.value == old(inbox)[0]
      ensures inbox == if old(inbox) == [] then [] else old(inbox)[1..]
    {
      if |inbox| == 0 { return None; }
      var head := inbox[0];
      inbox := inbox[1..];
      f := if head.ctrl == TRANSPORT_ERROR then None else Some(head);
    }

    method SendAck(s: bool)
      modifies this`outbox
      ensures outbox == old(outbox) + [Frame(AckFor(s), Plain([]))]
    {
      outbox := outbox + [Frame(AckFor(s), Plain([]))];
    }

    method SendDataMessage(base: u8, payload: Body<K>) returns (ok: bool)
      modifies this`sendSeq, this`recvSeq, this`pendingData, this`session, this`activeSessionId, this`inbox, this`outbox
      ensures (State(), ok) == SendData(old(State()), base, payload)
    {
      hide SendWait, SendStep;
      outbox := outbox + [Frame(WithSeq(base, sendSeq), payload)];
      assert SendWait(State()) == SendData(old(State()), base, payload);
      while true
        invariant SendWait(State()) == SendData(old(State()), base, payload)
        decreases |inbox|
      {
        SendWaitReads(State());
        var f := ReadFramed();
        if f.None? { return false; }
        SendStepCases(Host(sendSeq, recvSeq, pendingData), f.value);
        var rctrl := f.value.ctrl;
        if IsAck(rctrl) {
          if AckSeqOf(rctrl) == sendSeq {
            sendSeq := !sendSeq;
            return true;
          }
          continue;
        }
        sendSeq := !sendSeq;
        var s := SeqOf(rctrl);
        SendAck(s);
        if s == recvSeq {
          recvSeq := !recvSeq;
          pendingData := Some(f.value);
        }
        return true;
      }
    }

    method RecvDataMessage() returns (r: Option<Frame<K>>)
      modifies this`sendSeq, this`recvSeq, this`pendingData, this`session, this`activeSessionId, this`inbox, this`outbox
      ensures (State(), r) == RecvData(old(State()))
    {
      if pendingData.Some? {
        r := pendingData;
        pendingData := None;
        return;
      }
      hide RecvWait;
      while true
        invariant pendingData.None? && RecvWait(State()) == RecvData(old(State()))
        decreases |inbox|
      {
        RecvWaitReads(State());
        var f := ReadFramed();
        if f.None? { return None; }
        if IsAck(f.value.ctrl) { continue; }
        var s := SeqOf(f.value.ctrl);
        SendAck(s);
        if s == recvSeq {
          recvSeq := !recvSeq;
          return f;
        }
      }
    }

    method SendAppMessage(messageType: u16, protobuf: seq<u8>) returns (ok: bool)
      modifies this`sendSeq, this`recvSeq, this`pendingData, this`session, this`activeSessionId, this`inbox, this`outbox
      ensures (State(), ok) == SendApp(old(State()), messageType, protobuf)
    {
      if session.None? { return false; }
      var (e, ct) := Seal(session.value, EncodeAppMessage(activeSessionId, messageType, protobuf));
      session := Some(e);
      ok := SendDataMessage(ENCRYPTED_TRANSPORT, ct);
    }

    method RecvAppMessage() returns (r: Result<(u16, seq<u8>)>)
      modifies this`sendSeq, this`recvSeq, this`pendingData, this`session, this`activeSessionId, this`inbox, this`outbox
      ensures (State(), r) == RecvApp(old(State()))
    {
      var f := RecvDataMessage();
      if f.None? || session.None? { return Err; }
      var (e, pt) := Open(session.value, f.value.payload);
      session := Some(e);
      if pt.Err? { return Err; }
      var m := DecodeAppMessage(pt.value);
      if m.Err? { return Err; }
      r := Ok((m.value.1, m.value.2));
    }

    method TransceiveMessage(messageType: u16, protobuf: seq<u8>, buttonAck: seq<u8>)
      returns (r: Result<(u16, seq<u8>)>)
      modifies this`sendSeq, this`recvSeq, this`pendingData, this`session, this`activeSessionId, this`inbox, this`outbox
      ensures (State(), r) == Transceive(old(State()), messageType, protobuf, buttonAck)
    {
      var ok := SendAppMessage(messageType, protobuf);
      if !ok { return Err; }
      while true
        invariant AwaitReply(State(), buttonAck) == Transceive(old(State()), messageType, protobuf, buttonAck)
        decreases Measure(State())
      {
        ghost var before := State();
        r := RecvAppMessage();
        if r.Err? { return; }
        if r.value.0 == MSG_BUTTON_REQUEST {
          ok := SendAppMessage(MSG_BUTTON_ACK, buttonAck);
          if !ok { return Err; }
        } else if r.value.0 == MSG_FAILURE {
          return Err;
        } else {
          return;
        }
      }
    }

    method TransceiveOn(sessionId: u8, messageType: u16, protobuf: seq<u8>, buttonAck: seq<u8>)
      returns (r: Result<(u16, seq<u8>)>)
      modifies this`sendSeq, this`recvSeq, this`pendingData, this`session, this`activeSessionId, this`inbox, this`outbox
      ensures (State(), r) == Transceive(old(State()).(activeSessionId := sessionId), messageType, protobuf, buttonAck)
    {
      activeSessionId := sessionId;
      r := TransceiveMessage(messageType, protobuf, buttonAck);
    }

    /** The wallet is remembered once the device has answered Success, and only then. */
    method CreateSeededSession(passphrase: Option<string>, onDevice: bool, encoded: seq<u8>, buttonAck: seq<u8>)
      returns (ok: bool)
      modifies this
      ensures var (c, r) := Transceive(old(State()).(activeSessionId := 1), 1000, encoded, buttonAck);
        State() == c && (ok <==> r.Ok? && r.value.0 == 2)
      ensures seededWith == if ok then Some((passphrase, onDevice)) else old(seededWith)
    {
      activeSessionId := SEEDED_SESSION_ID;
      var r := TransceiveMessage(MSG_CREATE_NEW_SESSION, encoded, buttonAck);
      if r.Err? { return false; }
      if r.value.0 != MSG_SUCCESS { return false; }
      seededWith := Some((passphrase, onDevice));
      ok := true;
    }
  }
}
