/** The driver's loops and the protocol's steps agree: what a run does frame by frame, the driver does in one call. */
module DriverRuns {
  import opened Results
  import opened Words
  import opened Control
  import opened Session
  import opened Connection
  import opened Protocol
  import opened ProtocolRuns

  // ---- What the host hears and says along a run ----

  ghost function Heard<K>(s: System<K>, step: Step): seq<Frame<K>>
    requires Enabled(s, step)
  {
    if step.HostRead? then [s.toHost[0].frame] else []
  }

  /** No step puts more than one frame on the queue to the device. */
  ghost function Said<K>(s: System<K>, step: Step): seq<Frame<K>>
    requires Enabled(s, step)
  {
    var q := Apply(s, step).toDevice;
    if step.DeviceRead? || |q| <= |s.toDevice| then [] else [q[|q| - 1].frame]
  }

  ghost function AllHeard<K(!new)>(s: System<K>, steps: seq<Step>, t: System<K>): seq<Frame<K>>
    requires Runs(s, steps, t)
    decreases |steps|
  {
    if steps == [] then [] else Heard(s, steps[0]) + AllHeard(Apply(s, steps[0]), steps[1..], t)
  }

  ghost function AllSaid<K(!new)>(s: System<K>, steps: seq<Step>, t: System<K>): seq<Frame<K>>
    requires Runs(s, steps, t)
    decreases |steps|
  {
    if steps == [] then [] else Said(s, steps[0]) + AllSaid(Apply(s, steps[0]), steps[1..], t)
  }

  // ---- One step ----

  /** What is left of a round: the rest of the send if it still waits, and then the receive. */
  function RoundRest<K>(c: Conn<K>, sending: bool): (Conn<K>, Option<Frame<K>>) {
    var (c1, ok) := if sending then SendWait(c) else (c, true);
    if ok then RecvData(c1) else (c1, None)
  }

  /** The driver moved along with the host. */
  function Moved<K>(c: Conn<K>, host: Host<K>, inbox: seq<Frame<K>>, said: seq<Frame<K>>): Conn<K> {
    c.(host := host, inbox := inbox, outbox := c.outbox + said)
  }

  /** Steps that begin a round, or install the session between two. */
  predicate Starts(step: Step) { step.HostHandshake? || step.HostInstall? || step.HostRequest? }

  ghost predicate InRound<K>(s: System<K>) { s.phase.Sending? || s.phase.Receiving? }

  /** A payload was delivered, and opened if a session is installed. */
  ghost predicate Delivered<K>(s: System<K>, body: Body<K>, t: System<K>) {
    t.delivered == s.delivered + [body]
    && match s.session
       case None => t.session.None? && t.texts == s.texts
       case Some(e) => Open(e, body).1.Ok? && t.session == Some(Open(e, body).0)
                       && t.texts == s.texts + [Open(e, body).1.value]
  }

  ghost predicate SameTexts<K>(s: System<K>, t: System<K>) {
    t.delivered == s.delivered && t.session == s.session && t.texts == s.texts
  }

  lemma HeadIsOrdinary<K(!new)>(s: System<K>)
    requires Inv(s) && s.toHost != []
    ensures IsOrdinary(s.toHost[0].frame.ctrl)
  {
    var k: nat :| InvAt(s, k);
    var p := s.toHost[0];
    assert FromDevice(p, Taken(s), |s.device.accepted|, s.device.replies);
    BitsReadBack(0, Parity(p.exchange));
    if p.frame.ctrl != AckFor(Parity(p.exchange)) {
      assert SealedAt(s.device.replies[p.exchange], s.keyResponse, 1, p.exchange);
      BitsReadBack(s.device.replies[p.exchange].base, Parity(p.exchange));
    }
  }

  /** Reading one frame while a send waits. */
  lemma SendReadMoves<K(!new)>(s: System<K>, c: Conn<K>, rest: seq<Frame<K>>)
    requires Inv(s) && s.phase.Sending? && s.toHost != []
    requires c.host == s.host && c.inbox == [s.toHost[0].frame] + rest
    ensures var t := HostReads(s);
      InRound(t) && SameTexts(s, t)
      && RoundRest(c, true) == RoundRest(Moved(c, t.host, rest, Said(s, HostRead)), t.phase.Sending?)
  {
    HeadIsOrdinary(s);
    assert c.inbox[1..] == rest;
    assert c.outbox + [] == c.outbox;
  }

  /** Reading one frame while data is awaited. */
  lemma RecvReadMoves<K(!new)>(s: System<K>, c: Conn<K>, rest: seq<Frame<K>>)
    requires Inv(s) && s.phase.Receiving? && s.host.pending.None? && s.toHost != []
    requires c.host == s.host && c.inbox == [s.toHost[0].frame] + rest
    requires !HostReads(s).phase.Failed?
    ensures var t := HostReads(s);
      var c1 := Moved(c, t.host, rest, Said(s, HostRead));
      (t.phase.Receiving? && SameTexts(s, t) && RoundRest(c, false) == RoundRest(c1, false))
      || (t.phase.Idle? && RoundRest(c, false) == (c1, Some(s.toHost[0].frame))
          && Delivered(s, s.toHost[0].frame.payload, t))
  {
    HeadIsOrdinary(s);
    assert c.inbox[1..] == rest;
    assert c.outbox + [] == c.outbox;
  }

  /** Taking the stashed frame. */
  lemma TakeMoves<K(!new)>(s: System<K>, c: Conn<K>)
    requires s.phase.Receiving? && s.host.pending.Some? && c.host == s.host
    requires !Apply(s, HostTake).phase.Failed?
    ensures var t := Apply(s, HostTake);
      t.phase.Idle? && RoundRest(c, false) == (Moved(c, t.host, c.inbox, Said(s, HostTake)), s.host.pending)
      && Delivered(s, s.host.pending.value.payload, t)
  {
    assert c.outbox + [] == c.outbox;
  }

  /** No other step concerns the host during a round. */
  lemma OthersStay<K(!new)>(s: System<K>, step: Step)
    requires Enabled(s, step) && !s.phase.Failed? && !Starts(step) && !step.HostRead? && !step.HostTake?
    ensures var t := Apply(s, step);
      t.host == s.host && t.phase == s.phase && SameTexts(s, t) && t.requests == s.requests
      && Heard(s, step) == [] && Said(s, step) == []
  {
  }

  /** One step of a round, whoever makes it: the driver has as much left to do before it as after it, or is done. */
  lemma RoundStep<K(!new)>(s: System<K>, step: Step, c: Conn<K>, rest: seq<Frame<K>>) returns (f: Option<Frame<K>>)
    requires Inv(s) && Enabled(s, step) && InRound(s) && c.host == s.host && c.inbox == Heard(s, step) + rest
    ensures var t := Apply(s, step);
      var c1 := Moved(c, t.host, rest, Said(s, step));
      Inv(t) && match f
                case None => InRound(t) && SameTexts(s, t)
                             && RoundRest(c, s.phase.Sending?) == RoundRest(c1, t.phase.Sending?)
                case Some(frame) => t.phase.Idle? && RoundRest(c, s.phase.Sending?) == (c1, Some(frame))
                                    && Delivered(s, frame.payload, t)
  {
    StepKeepsInv(s, step);
    var t := Apply(s, step);
    if step.HostRead? && s.phase.Sending? {
      SendReadMoves(s, c, rest);
      f := None;
    } else if step.HostRead? {
      RecvReadMoves(s, c, rest);
      f := if t.phase.Idle? then Some(s.toHost[0].frame) else None;
    } else if step.HostTake? {
      assert c.inbox == rest;
      TakeMoves(s, c);
      f := s.host.pending;
    } else {
      OthersStay(s, step);
      assert c.inbox == rest && c.outbox + [] == c.outbox;
      assert Moved(c, t.host, rest, Said(s, step)) == c;
      f := None;
    }
  }

  // ---- One round ----

  ghost predicate Quiet(steps: seq<Step>) { forall i :: 0 <= i < |steps| ==> !Starts(steps[i]) }

  lemma {:induction false} IdleTail<K(!new)>(s: System<K>, steps: seq<Step>, t: System<K>)
    requires s.phase.Idle? && Runs(s, steps, t) && Quiet(steps)
    ensures t.phase.Idle? && t.host == s.host && SameTexts(s, t) && AllHeard(s, steps, t) == [] == AllSaid(s, steps, t)
    decreases |steps|
  {
    if steps == [] {
    } else {
      OthersStay(s, steps[0]);
      IdleTail(Apply(s, steps[0]), steps[1..], t);
    }
  }

  lemma MovedTwice<K>(c: Conn<K>, h: Host<K>, i: seq<Frame<K>>, a: seq<Frame<K>>, h1: Host<K>, i1: seq<Frame<K>>,
                      b: seq<Frame<K>>)
    ensures Moved(Moved(c, h, i, a), h1, i1, b) == Moved(c, h1, i1, a + b)
  {
    assert (c.outbox + a) + b == c.outbox + (a + b);
  }

  lemma SameTextsItself<K>(s: System<K>)
    ensures SameTexts(s, s)
  {
  }

  lemma DeliveredAround<K>(s: System<K>, s1: System<K>, body: Body<K>, t1: System<K>, t: System<K>)
    requires SameTexts(s, s1) && Delivered(s1, body, t1) && SameTexts(t1, t)
    ensures Delivered(s, body, t)
  {
  }

  /**
   * A round of the protocol, however the device's steps fall in between, is one run of the driver's loops over the
   * frames the host heard: it ends with the same bits and stash, leaves the later frames alone, says the same, and
   * returns the payload that was delivered.
   */
  lemma {:induction false} RoundIsDriven<K(!new)>(s: System<K>, steps: seq<Step>, t: System<K>, c: Conn<K>,
                                                  rest: seq<Frame<K>>) returns (f: Frame<K>)
    requires Inv(s) && InRound(s) && Runs(s, steps, t) && Quiet(steps) && t.phase.Idle?
    requires c.host == s.host && c.inbox == AllHeard(s, steps, t) + rest
    ensures RoundRest(c, s.phase.Sending?) == (Moved(c, t.host, rest, AllSaid(s, steps, t)), Some(f))
    ensures Delivered(s, f.payload, t)
    decreases |steps|
  {
    hide Inv, Apply, Enabled, RoundRest, Delivered, SameTexts, Heard, Said;
    var s1, tail := Apply(s, steps[0]), steps[1..];
    var later := AllHeard(s1, tail, t) + rest;
    assert c.inbox == Heard(s, steps[0]) + later;
    var done := RoundStep(s, steps[0], c, later);
    var c1 := Moved(c, s1.host, later, Said(s, steps[0]));
    MovedTwice(c, s1.host, later, Said(s, steps[0]), t.host, rest, AllSaid(s1, tail, t));
    if done.None? {
      f := RoundIsDriven(s1, tail, t, c1, rest);
      SameTextsItself(t);
      DeliveredAround(s, s1, f.payload, t, t);
    } else {
      f := done.value;
      IdleTail(s1, tail, t);
      assert later == rest;
      assert Said(s, steps[0]) + [] == Said(s, steps[0]);
      SameTextsItself(s);
      DeliveredAround(s, s, f.payload, s1, t);
    }
  }

  // ---- Handshake messages ----

  lemma HandshakeStarts<K(!new)>(s: System<K>, step: Step, c: Conn<K>)
    requires step.HostHandshake? && Enabled(s, step) && c.host == s.host
    ensures var s1 := Apply(s, step);
      s1.phase.Sending? && s1.host == s.host && s1.session.None? && s1.delivered == s.delivered && Heard(s, step) == []
      && s1.requests == s.requests + [Message(step.base, Plain(step.bytes))]
      && SendData(c, step.base, Plain(step.bytes)) == SendWait(Moved(c, s1.host, c.inbox, Said(s, step)))
  {
  }

  lemma {:induction false} QuietKeepsRequests<K(!new)>(s: System<K>, steps: seq<Step>, t: System<K>)
    requires Runs(s, steps, t) && Quiet(steps)
    ensures t.requests == s.requests
    decreases |steps|
  {
    hide HostReads, DeviceReads, EmitReply, ReplyMessage;
    if steps == [] {
    } else {
      if steps[0].HostRead? { ReadShortens(s); }
      if steps[0].DeviceRead? { DeviceReadsOnly(s); }
      QuietKeepsRequests(Apply(s, steps[0]), steps[1..], t);
    }
  }

  lemma DeviceReadsOnly<K(!new)>(s: System<K>)
    requires s.toDevice != []
    ensures DeviceReads(s).requests == s.requests
  {
  }

  /** A handshake request and its round are one send and one receive of the driver, which returns what was delivered. */
  lemma HandshakeRound<K(!new)>(s: System<K>, steps: seq<Step>, t: System<K>, c: Conn<K>, rest: seq<Frame<K>>)
    returns (f: Frame<K>)
    requires Inv(s) && t.phase.Idle? && steps != [] && steps[0].HostHandshake? && Quiet(steps[1..])
    requires c.host == s.host && Runs(s, steps, t) && c.inbox == AllHeard(s, steps, t) + rest
    ensures var sent := SendData(c, steps[0].base, Plain(steps[0].bytes));
      sent.1 && RecvData(sent.0) == (Moved(c, t.host, rest, AllSaid(s, steps, t)), Some(f))
    ensures Inv(t) && t.delivered == s.delivered + [f.payload]
    ensures t.requests == s.requests + [Message(steps[0].base, Plain(steps[0].bytes))]
  {
    hide Inv, Apply, Enabled, SendWait, SendData, Heard, Said, Quiet;
    var s1, tail, said := Apply(s, steps[0]), steps[1..], Said(s, steps[0]);
    var c1 := Moved(c, s1.host, c.inbox, said);
    HandshakeStarts(s, steps[0], c);
    RunKeepsInv(s, steps, t);
    StepKeepsInv(s, steps[0]);
    QuietKeepsRequests(s1, tail, t);
    assert c1.inbox == AllHeard(s1, tail, t) + rest by {
      assert [] + AllHeard(s1, tail, t) == AllHeard(s1, tail, t);
    }
    f := RoundIsDriven(s1, tail, t, c1, rest);
    MovedTwice(c, s1.host, c.inbox, said, t.host, rest, AllSaid(s1, tail, t));
  }

  // ---- Application messages ----

  lemma RequestStarts<K(!new)>(s: System<K>, c: Conn<K>, messageType: u16, protobuf: seq<u8>)
    requires s.phase.Idle? && s.session.Some? && c.host == s.host && c.session == s.session
    ensures var step := HostRequest(EncodeAppMessage(c.activeSessionId, messageType, protobuf));
      var s1 := Apply(s, step);
      s1.phase.Sending? && s1.host == s.host && s1.texts == s.texts && s1.session.Some?
      && SendApp(c, messageType, protobuf)
         == SendWait(Moved(c, s1.host, c.inbox, Said(s, step)).(session := s1.session))
  {
  }

  function Decoded(text: seq<u8>): Result<(u16, seq<u8>)> {
    match DecodeAppMessage(text)
    case Err => Err
    case Ok(m) => Ok((m.1, m.2))
  }

  /** The driver behind a round, its session included. */
  ghost function Behind<K(!new)>(c: Conn<K>, s: System<K>, steps: seq<Step>, t: System<K>, rest: seq<Frame<K>>): Conn<K>
    requires Runs(s, steps, t)
  {
    Moved(c, t.host, rest, AllSaid(s, steps, t)).(session := t.session)
  }

  /** A request and its round are one send and one receive of the driver, which returns the text opened, decoded. */
  lemma RoundIsSendAndReceive<K(!new)>(s: System<K>, steps: seq<Step>, t: System<K>, c: Conn<K>, rest: seq<Frame<K>>,
                                       messageType: u16, protobuf: seq<u8>) returns (text: seq<u8>)
    requires Inv(s) && s.phase.Idle? && s.session.Some? && t.phase.Idle? && steps != [] && Quiet(steps[1..])
    requires c.host == s.host && c.session == s.session
    requires steps[0] == HostRequest(EncodeAppMessage(c.activeSessionId, messageType, protobuf))
    requires Runs(s, steps, t) && c.inbox == AllHeard(s, steps, t) + rest
    ensures t.session.Some? && t.texts == s.texts + [text] && Inv(t)
    ensures SendApp(c, messageType, protobuf).1
    ensures RecvApp(SendApp(c, messageType, protobuf).0) == (Behind(c, s, steps, t, rest), Decoded(text))
  {
    var s1, tail, said := Apply(s, steps[0]), steps[1..], Said(s, steps[0]);
    var c1 := Moved(c, s1.host, c.inbox, said).(session := s1.session);
    RequestStarts(s, c, messageType, protobuf);
    RequestHearsNothing(s, steps[0]);
    assert c1.inbox == AllHeard(s1, tail, t) + rest by {
      assert [] + AllHeard(s1, tail, t) == AllHeard(s1, tail, t);
    }
    var f;
    f, text := RoundOpens(s, steps, t, c1, rest);
    MovedTwice(c, s1.host, c.inbox, said, t.host, rest, AllSaid(s1, tail, t));
    ReceiveOpens(c1, Moved(c1, t.host, rest, AllSaid(s1, tail, t)), f, text, t.session);
  }

  lemma RequestHearsNothing<K(!new)>(s: System<K>, step: Step)
    requires step.HostRequest? && Enabled(s, step)
    ensures Heard(s, step) == []
  {
  }

  /** The round behind a request, and the text it opens. */
  lemma RoundOpens<K(!new)>(s: System<K>, steps: seq<Step>, t: System<K>, c1: Conn<K>, rest: seq<Frame<K>>)
    returns (f: Frame<K>, text: seq<u8>)
    requires Inv(s) && s.phase.Idle? && s.session.Some? && t.phase.Idle? && steps != [] && Quiet(steps[1..])
    requires steps[0].HostRequest? && Runs(s, steps, t)
    requires var s1 := Apply(s, steps[0]);
      c1.host == s1.host && c1.session == s1.session && c1.inbox == AllHeard(s1, steps[1..], t) + rest
    ensures var s1, tail := Apply(s, steps[0]), steps[1..];
      RoundRest(c1, true) == (Moved(c1, t.host, rest, AllSaid(s1, tail, t)), Some(f))
    ensures t.session.Some? && c1.session.Some? && Open(c1.session.value, f.payload) == (t.session.value, Ok(text))
    ensures t.texts == s.texts + [text] && Inv(t)
  {
    RunKeepsInv(s, steps, t);
    StepKeepsInv(s, steps[0]);
    f := RoundIsDriven(Apply(s, steps[0]), steps[1..], t, c1, rest);
    text := Open(c1.session.value, f.payload).1.value;
  }

  lemma ReceiveOpens<K>(c: Conn<K>, c1: Conn<K>, f: Frame<K>, text: seq<u8>, session: Option<Endpoint<K>>)
    requires RoundRest(c, true) == (c1, Some(f)) && c.session.Some? && session.Some?
    requires Open(c.session.value, f.payload) == (session.value, Ok(text))
    ensures SendWait(c).1 && RecvApp(SendWait(c).0) == (c1.(session := session), Decoded(text))
  {
  }

  // ---- Whole exchanges ----

  /** A request, the steps of its round, and the state they lead to. */
  datatype Turn<K> = Turn(request: seq<u8>, steps: seq<Step>, end: System<K>)

  ghost predicate Conversation<K(!new)>(s: System<K>, turns: seq<Turn<K>>, t: System<K>)
    decreases |turns|
  {
    if turns == [] then s == t
    else
      s.phase.Idle? && turns[0].end.phase.Idle? && Quiet(turns[0].steps)
      && Runs(s, [HostRequest(turns[0].request)] + turns[0].steps, turns[0].end)
      && Conversation(turns[0].end, turns[1..], t)
  }

  ghost function ConversationHeard<K(!new)>(s: System<K>, turns: seq<Turn<K>>, t: System<K>): seq<Frame<K>>
    requires Conversation(s, turns, t)
    decreases |turns|
  {
    if turns == [] then []
    else AllHeard(s, [HostRequest(turns[0].request)] + turns[0].steps, turns[0].end)
         + ConversationHeard(turns[0].end, turns[1..], t)
  }

  ghost function ConversationSaid<K(!new)>(s: System<K>, turns: seq<Turn<K>>, t: System<K>): seq<Frame<K>>
    requires Conversation(s, turns, t)
    decreases |turns|
  {
    if turns == [] then []
    else AllSaid(s, [HostRequest(turns[0].request)] + turns[0].steps, turns[0].end)
         + ConversationSaid(turns[0].end, turns[1..], t)
  }

  predicate IsButtonRequest(text: seq<u8>) { Decoded(text).Ok? && Decoded(text).value.0 == MSG_BUTTON_REQUEST }

  /** The last of the texts is the first that is no button request. */
  ghost predicate ButtonsThenReply(texts: seq<seq<u8>>) {
    texts != [] && !IsButtonRequest(texts[|texts| - 1])
    && forall i :: 0 <= i < |texts| - 1 ==> IsButtonRequest(texts[i])
  }

  /** What the caller gets for a reply. */
  function Outcome(text: seq<u8>): Result<(u16, seq<u8>)> {
    if Decoded(text).Ok? && Decoded(text).value.0 == MSG_FAILURE then Err else Decoded(text)
  }

  /** The requests of an exchange: the message, and then button acknowledgements. */
  ghost predicate Asks<K>(turns: seq<Turn<K>>, sessionId: u8, messageType: u16, protobuf: seq<u8>, buttonAck: seq<u8>) {
    turns != [] && turns[0].request == EncodeAppMessage(sessionId, messageType, protobuf)
    && forall i :: 0 < i < |turns| ==> turns[i].request == EncodeAppMessage(sessionId, MSG_BUTTON_ACK, buttonAck)
  }

  /** One transceive is its first turn, and after a button request another transceive. */
  lemma TransceiveUnfolds<K>(c: Conn<K>, messageType: u16, protobuf: seq<u8>, buttonAck: seq<u8>, c1: Conn<K>,
                             text: seq<u8>)
    requires SendApp(c, messageType, protobuf).1
    requires RecvApp(SendApp(c, messageType, protobuf).0) == (c1, Decoded(text))
    ensures Transceive(c, messageType, protobuf, buttonAck)
      == if IsButtonRequest(text) then Transceive(c1, MSG_BUTTON_ACK, buttonAck, buttonAck) else (c1, Outcome(text))
  {
  }

  ghost predicate SameLink<K>(c: Conn<K>, s: System<K>) { c.host == s.host && c.session == s.session }

  /** The driver behind an exchange. */
  ghost function BehindAll<K(!new)>(c: Conn<K>, s: System<K>, turns: seq<Turn<K>>, t: System<K>, rest: seq<Frame<K>>)
    : Conn<K>
    requires Conversation(s, turns, t)
  {
    Moved(c, t.host, rest, ConversationSaid(s, turns, t)).(session := t.session)
  }

  /** The first turn of an exchange, and the driver ready for the others. */
  lemma FirstTurn<K(!new)>(s: System<K>, turns: seq<Turn<K>>, t: System<K>, c: Conn<K>, rest: seq<Frame<K>>,
                           messageType: u16, protobuf: seq<u8>) returns (c1: Conn<K>, text: seq<u8>)
    requires Inv(s) && s.session.Some? && SameLink(c, s) && turns != [] && Conversation(s, turns, t)
    requires turns[0].request == EncodeAppMessage(c.activeSessionId, messageType, protobuf)
    requires c.inbox == ConversationHeard(s, turns, t) + rest
    ensures SendApp(c, messageType, protobuf).1
    ensures RecvApp(SendApp(c, messageType, protobuf).0) == (c1, Decoded(text))
    ensures var end := turns[0].end;
      Inv(end) && end.session.Some? && end.texts == s.texts + [text] && SameLink(c1, end)
      && c1.inbox == ConversationHeard(end, turns[1..], t) + rest && c1.activeSessionId == c.activeSessionId
      && BehindAll(c1, end, turns[1..], t, rest) == BehindAll(c, s, turns, t, rest)
  {
    var steps, end := [HostRequest(turns[0].request)] + turns[0].steps, turns[0].end;
    var later := ConversationHeard(end, turns[1..], t) + rest;
    assert steps[1..] == turns[0].steps;
    assert c.inbox == AllHeard(s, steps, end) + later;
    text := RoundIsSendAndReceive(s, steps, end, c, later, messageType, protobuf);
    c1 := Behind(c, s, steps, end, later);
    MovedTwice(c, end.host, later, AllSaid(s, steps, end), t.host, rest, ConversationSaid(end, turns[1..], t));
  }

  lemma TurnGrows<K(!new)>(s: System<K>, turn: Turn<K>) returns (text: seq<u8>)
    requires Inv(s) && s.phase.Idle? && s.session.Some? && turn.end.phase.Idle? && Quiet(turn.steps)
    requires Runs(s, [HostRequest(turn.request)] + turn.steps, turn.end)
    ensures Inv(turn.end) && turn.end.session.Some? && turn.end.texts == s.texts + [text]
  {
    var steps := [HostRequest(turn.request)] + turn.steps;
    assert steps[1..] == turn.steps;
    var s1 := Apply(s, steps[0]);
    StepKeepsInv(s, steps[0]);
    var f;
    var c := Conn(s1.host, s1.session, 0, AllHeard(s1, steps[1..], turn.end) + [], []);
    f, text := RoundOpens(s, steps, turn.end, c, []);
  }

  lemma {:induction false} TextsGrow<K(!new)>(s: System<K>, turns: seq<Turn<K>>, t: System<K>)
    requires Inv(s) && s.session.Some? && Conversation(s, turns, t)
    ensures t.session.Some? && |t.texts| == |s.texts| + |turns| && t.texts[..|s.texts|] == s.texts && Inv(t)
    decreases |turns|
  {
    hide Inv, Runs, Quiet;
    if turns == [] {
    } else {
      var text := TurnGrows(s, turns[0]);
      TextsGrow(turns[0].end, turns[1..], t);
    }
  }

  /**
   * A whole transceive, with any number of button requests in it, returns what the last opened text says, and leaves
   * the driver's bits, stash and session as the protocol has them; the frames it said are the ones of the run.
   */
  lemma {:induction false} TransceiveIsDriven<K(!new)>(s: System<K>, turns: seq<Turn<K>>, t: System<K>, c: Conn<K>,
      rest: seq<Frame<K>>, messageType: u16, protobuf: seq<u8>, buttonAck: seq<u8>)
    requires Inv(s) && s.session.Some? && SameLink(c, s) && Conversation(s, turns, t)
    requires Asks(turns, c.activeSessionId, messageType, protobuf, buttonAck)
    requires |s.texts| <= |t.texts| && ButtonsThenReply(t.texts[|s.texts|..])
    requires c.inbox == ConversationHeard(s, turns, t) + rest
    ensures t.texts != []
    ensures Transceive(c, messageType, protobuf, buttonAck)
      == (BehindAll(c, s, turns, t, rest), Outcome(t.texts[|t.texts| - 1]))
    decreases |turns|
  {
    hide Inv, Transceive, SendApp, RecvApp, BehindAll, ConversationHeard, ConversationSaid, Outcome, Decoded;
    var end, tail := turns[0].end, turns[1..];
    var c1, text := FirstTurn(s, turns, t, c, rest, messageType, protobuf);
    TransceiveUnfolds(c, messageType, protobuf, buttonAck, c1, text);
    TextsGrow(s, turns, t);
    TextsGrow(end, tail, t);
    var new0, new1 := t.texts[|s.texts|..], t.texts[|end.texts|..];
    assert new0[0] == text && new0[1..] == new1;
    if tail == [] {
      BehindNothing(c1, end, tail, t, rest);
    } else {
      TransceiveIsDriven(end, tail, t, c1, rest, MSG_BUTTON_ACK, buttonAck, buttonAck);
    }
  }

  lemma BehindNothing<K(!new)>(c: Conn<K>, s: System<K>, turns: seq<Turn<K>>, t: System<K>, rest: seq<Frame<K>>)
    requires turns == [] && Conversation(s, turns, t) && SameLink(c, s) && c.inbox == ConversationHeard(s, turns, t) + rest
    ensures BehindAll(c, s, turns, t, rest) == c
  {
    assert c.inbox == rest && c.outbox + [] == c.outbox;
  }

  /** And that text is the device's reply to the last of the requests. */
  lemma TransceiveReturnsTheReply<K(!new)>(s: System<K>, turns: seq<Turn<K>>, t: System<K>, c: Conn<K>,
      rest: seq<Frame<K>>, messageType: u16, protobuf: seq<u8>, buttonAck: seq<u8>)
    requires Inv(s) && s.session.Some? && SameLink(c, s) && Conversation(s, turns, t)
    requires Asks(turns, c.activeSessionId, messageType, protobuf, buttonAck)
    requires |s.texts| <= |t.texts| && ButtonsThenReply(t.texts[|s.texts|..])
    requires c.inbox == ConversationHeard(s, turns, t) + rest
    ensures |t.device.replies| == |t.requests| == |t.texts| + ROUNDS
    ensures t.device.replies[|t.device.replies| - 1].body.Sealed?
    ensures Transceive(c, messageType, protobuf, buttonAck).1
      == Outcome(t.device.replies[|t.device.replies| - 1].body.text)
  {
    TransceiveIsDriven(s, turns, t, c, rest, messageType, protobuf, buttonAck);
    TextsGrow(s, turns, t);
    EndsIdle(s, turns, t);
    LastTextIsReply(t);
  }

  lemma {:induction false} EndsIdle<K(!new)>(s: System<K>, turns: seq<Turn<K>>, t: System<K>)
    requires turns != [] && Conversation(s, turns, t)
    ensures t.phase.Idle?
    decreases |turns|
  {
    if |turns| == 1 {
    } else {
      EndsIdle(turns[0].end, turns[1..], t);
    }
  }

  lemma LastTextIsReply<K(!new)>(t: System<K>)
    requires Inv(t) && t.session.Some? && t.phase.Idle? && t.texts != []
    ensures |t.device.replies| == |t.requests| == |t.texts| + ROUNDS
    ensures var r := t.device.replies[|t.device.replies| - 1].body; r.Sealed? && t.texts[|t.texts| - 1] == r.text
  {
    var last := |t.texts| - 1;
    assert t.delivered[last + ROUNDS] == t.device.replies[last + ROUNDS].body;
  }

  // ---- Every run is made of rounds ----

  lemma SessionStays<K(!new)>(s: System<K>, step: Step)
    requires Enabled(s, step) && s.session.Some?
    ensures Apply(s, step).session.Some?
    ensures Starts(step) ==> step.HostRequest? && s.phase.Idle?
  {
  }

  /** Once the session is installed, any run to an idle state is device steps, or the end of a round, and then whole
      turns: the shape the driver has been shown to follow. */
  lemma {:induction false} EveryRunIsTurns<K(!new)>(s: System<K>, steps: seq<Step>, t: System<K>)
    returns (before: seq<Step>, first: System<K>, turns: seq<Turn<K>>)
    requires s.session.Some? && Runs(s, steps, t) && t.phase.Idle?
    ensures Quiet(before) && Runs(s, before, first) && first.phase.Idle? && Conversation(first, turns, t)
    decreases |steps|
  {
    hide Enabled, Apply;
    if steps == [] {
      before, first, turns := [], s, [];
    } else {
      SessionStays(s, steps[0]);
      before, first, turns := EveryRunIsTurns(Apply(s, steps[0]), steps[1..], t);
      assert ([steps[0]] + before)[1..] == before;
      if Starts(steps[0]) {
        before, first, turns := [], s, [Turn(steps[0].text, before, first)] + turns;
      } else {
        before := [steps[0]] + before;
      }
    }
  }
}
