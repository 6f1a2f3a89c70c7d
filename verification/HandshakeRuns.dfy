/** The handshake carried by the first two rounds of a run, and the session that both ends then hold. */
module HandshakeRuns {
  import opened Results
  import opened Words
  import opened Control
  import opened Session
  import opened Connection
  import opened Protocol
  import opened ProtocolRuns
  import opened DriverRuns
  import opened N = Noise
  import Handshake

  type Run = System<Term>

  /** The two ends of a handshake, and how its four messages are written. */
  datatype Parties = Parties(g: Primitives, host: HostInput, device: DeviceInput,
                             initRequest: Coding<InitRequest>, initResponse: Coding<InitResponse>,
                             completion: Coding<CompletionRequest>, result: Coding<Term>)

  ghost predicate Readable(p: Parties) {
    Inverts(p.initRequest) && Inverts(p.initResponse) && Inverts(p.completion) && Inverts(p.result)
  }

  function BytesOf(b: Body<Term>): seq<u8> { if b.Plain? then b.bytes else b.text }

  // ---- What each end makes of what reaches it ----

  function FirstRead(p: Parties, reply: Body<Term>): Result<(HostState, CompletionRequest)> {
    N.HostRead(p.g, p.host, p.initResponse.decode(BytesOf(reply)))
  }

  function Finished(p: Parties, first: Body<Term>, second: Body<Term>): Result<SessionKeys> {
    match FirstRead(p, first)
    case Err => Err
    case Ok(read) => HostFinish(p.g, p.host, read.0, p.result.decode(BytesOf(second)))
  }

  function FirstReply(p: Parties, request: Body<Term>): (DeviceState, InitResponse) {
    DeviceInit(p.g, p.device, p.initRequest.decode(BytesOf(request)))
  }

  function SecondReply(p: Parties, first: Body<Term>, second: Body<Term>): Result<DeviceResult> {
    DeviceComplete(p.g, p.device, FirstReply(p, first).0, p.completion.decode(BytesOf(second)))
  }

  /** The host's first two requests; it makes the second only if it could read the first reply. */
  ghost predicate HostPlays(p: Parties, t: Run) {
    && (|t.requests| > 0 ==> t.requests[0].body == Plain(p.initRequest.encode(HostInit(p.g, p.host))))
    && (|t.requests| > 1 ==>
          |t.delivered| > 0 && FirstRead(p, t.delivered[0]).Ok?
          && t.requests[1].body == Plain(p.completion.encode(FirstRead(p, t.delivered[0]).value.1)))
  }

  /** The device's first two replies; it makes the second only if it could complete. */
  ghost predicate DevicePlays(p: Parties, t: Run) {
    var accepted, replies := t.device.accepted, t.device.replies;
    && (|replies| > 0 ==>
          |accepted| > 0 && replies[0].body == Plain(p.initResponse.encode(FirstReply(p, accepted[0]).1)))
    && (|replies| > 1 ==>
          |accepted| > 1 && SecondReply(p, accepted[0], accepted[1]).Ok?
          && replies[1].body == Plain(p.result.encode(SecondReply(p, accepted[0], accepted[1]).value.response)))
  }

  ghost predicate SameProperties(p: Parties) { p.host.deviceProperties == p.device.deviceProperties }

  // ---- Agreement over every run ----

  /** The first request arrives, and its reply is read exactly when both ends know the same properties. */
  lemma FirstRound(p: Parties, t: Run)
    requires Readable(p) && Reachable(t) && HostPlays(p, t) && DevicePlays(p, t)
    ensures |t.device.accepted| > 0 ==>
      FirstReply(p, t.device.accepted[0]) == DeviceInit(p.g, p.device, HostInit(p.g, p.host))
    ensures |t.delivered| > 0 ==>
      FirstRead(p, t.delivered[0]) == N.HostRead(p.g, p.host, DeviceInit(p.g, p.device, HostInit(p.g, p.host)).1)
    ensures |t.delivered| > 0 ==> (FirstRead(p, t.delivered[0]).Ok? <==> SameProperties(p))
  {
    hide N.HostRead, HostInit, DeviceInit, Reachable;
    Safety(t);
    if |t.delivered| > 0 {
      FirstResponse(p);
    }
  }

  lemma FirstResponse(p: Parties)
    ensures N.HostRead(p.g, p.host, DeviceInit(p.g, p.device, HostInit(p.g, p.host)).1).Ok? <==> SameProperties(p)
  {
    var sent := DeviceInit(p.g, p.device, HostInit(p.g, p.host)).1;
    Handshake.ResponseAcceptedIff(p.g, p.host, p.device, HostInit(p.g, p.host), sent.ephemeral);
    assert sent == InitResponse(sent.ephemeral, sent.encStatic, sent.tag);
  }

  /** The request that the host makes of the first reply is one the device completes. */
  lemma SecondRequest(p: Parties, t: Run)
    requires Readable(p) && Reachable(t) && HostPlays(p, t) && DevicePlays(p, t) && |t.requests| > 1
    ensures SameProperties(p) && SecondReply(p, t.requests[0].body, t.requests[1].body).Ok?
    ensures forall x | Handshake.IsExchange(p.g, p.host, p.device, x) ::
      SecondReply(p, t.requests[0].body, t.requests[1].body) == Ok(x.result)
  {
    hide N.HostRead, HostInit, DeviceInit, DeviceComplete, HostFinish, Reachable;
    FirstRound(p, t);
    var x := Handshake.Agreement(p.g, p.host, p.device);
    assert p.completion.decode(p.completion.encode(x.request)) == x.request;
  }

  /**
   * In every run in which both ends play the handshake, whatever is lost or sent again: the host reads the first reply
   * exactly when both know the same properties, the device completes whatever second request it accepts, and once the
   * second reply is delivered the host finishes with the keys the device derived.
   */
  lemma AgreementOverRuns(p: Parties, t: Run)
    requires Readable(p) && Reachable(t) && HostPlays(p, t) && DevicePlays(p, t)
    ensures |t.delivered| > 0 ==> (FirstRead(p, t.delivered[0]).Ok? <==> SameProperties(p))
    ensures |t.device.accepted| > 1 ==> SecondReply(p, t.device.accepted[0], t.device.accepted[1]).Ok?
    ensures |t.delivered| > 1 ==>
      |t.device.accepted| > 1
      && (var host := Finished(p, t.delivered[0], t.delivered[1]);
          var device := SecondReply(p, t.device.accepted[0], t.device.accepted[1]);
          host.Ok? && device.Ok? && host.value.trezorState == Bytes([2])
          && host.value.nonceRequest == 0 && host.value.nonceResponse == 1
          && (host.value.keyRequest, host.value.keyResponse, host.value.hostStatic)
             == (device.value.keyRequest, device.value.keyResponse, device.value.hostStatic))
  {
    hide N.HostRead, HostInit, DeviceInit, DeviceComplete, HostFinish, Reachable;
    Safety(t);
    FirstRound(p, t);
    if |t.device.accepted| > 1 {
      SecondRequest(p, t);
      var x := Handshake.Agreement(p.g, p.host, p.device);
      if |t.delivered| > 1 {
        assert p.result.decode(p.result.encode(x.result.response)) == x.result.response;
        assert Finished(p, t.delivered[0], t.delivered[1]) == Ok(x.keys);
      }
    }
  }

  /** The device seals with the keys it derived, once it has them. */
  ghost predicate SealsWithDerived(p: Parties, t: Run) {
    var accepted := t.device.accepted;
    |accepted| > 1 && SecondReply(p, accepted[0], accepted[1]).Ok? ==>
      (var r := SecondReply(p, accepted[0], accepted[1]).value;
       (t.keyRequest, t.keyResponse) == (r.keyRequest, r.keyResponse))
  }

  /** The session a run works with is the one the host makes from its handshake, moved on by the messages so far. */
  lemma SessionFromHandshake(p: Parties, t: Run)
    requires Readable(p) && Reachable(t) && HostPlays(p, t) && DevicePlays(p, t) && SealsWithDerived(p, t)
    requires t.session.Some?
    ensures |t.delivered| > 1 && Finished(p, t.delivered[0], t.delivered[1]).Ok? && |t.requests| >= ROUNDS
    ensures var keys := Finished(p, t.delivered[0], t.delivered[1]).value;
      t.session.value == Endpoint(keys.keyRequest, keys.keyResponse,
                                  NonceAfter(keys.nonceRequest, |t.requests| - ROUNDS),
                                  NonceAfter(keys.nonceResponse, |t.texts|))
  {
    hide Finished, FirstRead, SecondReply, FirstReply, Reachable, HostPlays, DevicePlays;
    SessionInStep(t);
    AgreementOverRuns(p, t);
  }

  // ---- The driver's own handshake ----

  function Performed(p: Parties, c: Conn<Term>): (Conn<Term>, Result<SessionKeys>) {
    var (c1, asked) := SendData(c, HANDSHAKE_INIT_REQUEST, Plain(p.initRequest.encode(HostInit(p.g, p.host))));
    if !asked then (c1, Err)
    else
      var (c2, first) := RecvData(c1);
      if first.None? then (c2, Err)
      else
        var read := FirstRead(p, first.value.payload);
        if read.Err? then (c2, Err)
        else
          var (c3, answered) :=
            SendData(c2, HANDSHAKE_COMPLETION_REQUEST, Plain(p.completion.encode(read.value.1)));
          if !answered then (c3, Err)
          else
            var (c4, second) := RecvData(c3);
            (c4, if second.None? then Err else Finished(p, first.value.payload, second.value.payload))
  }

  method Perform(conn: Driver<Term>, p: Parties) returns (keys: Result<SessionKeys>)
    modifies conn
    ensures (conn.State(), keys) == Performed(p, old(conn.State()))
  {
    hide N.HostRead, HostInit, HostFinish, SendData, RecvData;
    var hs := new HostHandshake.WithEphemeral(p.g, p.host);
    var init := hs.InitRequestPayload();
    var sent := conn.SendDataMessage(HANDSHAKE_INIT_REQUEST, Plain(p.initRequest.encode(init)));
    if !sent { return Err; }
    var first := conn.RecvDataMessage();
    if first.None? { return Err; }
    var completion := hs.ReadInitResponse(p.initResponse.decode(BytesOf(first.value.payload)));
    if completion.Err? { return Err; }
    sent := conn.SendDataMessage(HANDSHAKE_COMPLETION_REQUEST, Plain(p.completion.encode(completion.value)));
    if !sent { return Err; }
    var second := conn.RecvDataMessage();
    if second.None? { return Err; }
    keys := hs.ReadCompletionResponse(p.result.decode(BytesOf(second.value.payload)));
  }

  /** A handshake request and the steps of its round, up to the delivery of the reply. */
  ghost predicate IsRound(s: Run, steps: seq<Step>, t: Run, base: u8) {
    steps != [] && steps[0].HostHandshake? && steps[0].base == base && Quiet(steps[1..])
    && Runs(s, steps, t) && t.phase.Idle?
  }

  lemma RoundsReach(a: seq<Step>, m: Run, b: seq<Step>, t: Run)
    requires Runs(Initial(t.keyRequest, t.keyResponse), a, m) && Runs(m, b, t)
    ensures Reachable(t)
  {
    RunsAppend(Initial(t.keyRequest, t.keyResponse), a, m, b, t);
  }

  lemma RoundReaches(a: seq<Step>, m: Run)
    requires Runs(Initial(m.keyRequest, m.keyResponse), a, m)
    ensures Reachable(m)
  {
  }

  /** The driver's handshake, over what it hears in two rounds of a run, returns the keys the device derived. */
  lemma HandshakeIsDriven(p: Parties, a: seq<Step>, m: Run, b: seq<Step>, t: Run, c: Conn<Term>, rest: seq<Frame<Term>>)
    requires Readable(p) && HostPlays(p, t) && DevicePlays(p, t)
    requires var s := Initial(t.keyRequest, t.keyResponse);
      IsRound(s, a, m, HANDSHAKE_INIT_REQUEST) && IsRound(m, b, t, HANDSHAKE_COMPLETION_REQUEST)
      && c.host == s.host && c.inbox == AllHeard(s, a, m) + (AllHeard(m, b, t) + rest)
    ensures |t.device.accepted| > 1 && SecondReply(p, t.device.accepted[0], t.device.accepted[1]).Ok?
    ensures var (c1, keys) := Performed(p, c);
      var device := SecondReply(p, t.device.accepted[0], t.device.accepted[1]).value;
      c1 == Moved(c, t.host, rest, AllSaid(Initial(t.keyRequest, t.keyResponse), a, m) + AllSaid(m, b, t))
      && keys.Ok? && (keys.value.keyRequest, keys.value.keyResponse) == (device.keyRequest, device.keyResponse)
  {
    hide Runs, Inv, Apply, Enabled, Quiet, AllHeard, AllSaid, Reachable, Performed, FirstRead, SecondReply, Finished;
    var s := Initial(t.keyRequest, t.keyResponse);
    InitialInv(t.keyRequest, t.keyResponse);
    RoundsReach(a, m, b, t);
    var later := AllHeard(m, b, t) + rest;
    var first := HandshakeRound(s, a, m, c, later);
    var c2 := Moved(c, m.host, later, AllSaid(s, a, m));
    var second := HandshakeRound(m, b, t, c2, rest);
    AgreementOverRuns(p, t);
    assert t.delivered == [first.payload, second.payload];
    TwoRounds(p, c, a[0].bytes, c2, first, b[0].bytes, Moved(c2, t.host, rest, AllSaid(m, b, t)), second);
    MovedTwice(c, m.host, later, AllSaid(s, a, m), t.host, rest, AllSaid(m, b, t));
  }

  lemma TwoRounds(p: Parties, c: Conn<Term>, x: seq<u8>, c2: Conn<Term>, first: Frame<Term>,
                  y: seq<u8>, c4: Conn<Term>, second: Frame<Term>)
    requires x == p.initRequest.encode(HostInit(p.g, p.host))
    requires SendData(c, HANDSHAKE_INIT_REQUEST, Plain(x)).1
    requires RecvData(SendData(c, HANDSHAKE_INIT_REQUEST, Plain(x)).0) == (c2, Some(first))
    requires FirstRead(p, first.payload).Ok? && y == p.completion.encode(FirstRead(p, first.payload).value.1)
    requires SendData(c2, HANDSHAKE_COMPLETION_REQUEST, Plain(y)).1
    requires RecvData(SendData(c2, HANDSHAKE_COMPLETION_REQUEST, Plain(y)).0) == (c4, Some(second))
    ensures Performed(p, c) == (c4, Finished(p, first.payload, second.payload))
  {
    hide SendData, RecvData, FirstRead, Finished, HostInit;
  }

  /** With different properties the driver gives up on the first reply, and says nothing more. */
  lemma HandshakeIsRefused(p: Parties, a: seq<Step>, m: Run, c: Conn<Term>, rest: seq<Frame<Term>>)
    requires Readable(p) && HostPlays(p, m) && DevicePlays(p, m) && !SameProperties(p)
    requires var s := Initial(m.keyRequest, m.keyResponse);
      IsRound(s, a, m, HANDSHAKE_INIT_REQUEST) && c.host == s.host && c.inbox == AllHeard(s, a, m) + rest
    ensures Performed(p, c) == (Moved(c, m.host, rest, AllSaid(Initial(m.keyRequest, m.keyResponse), a, m)), Err)
  {
    hide Runs, Inv, Apply, Enabled, Quiet, AllHeard, AllSaid, Reachable;
    hide FirstRead, Finished, SendData, RecvData, HostInit;
    var s := Initial(m.keyRequest, m.keyResponse);
    InitialInv(m.keyRequest, m.keyResponse);
    var first := HandshakeRound(s, a, m, c, rest);
    RoundReaches(a, m);
    AgreementOverRuns(p, m);
  }

  // ---- Every handshake can still complete ----

  /** A state in which both ends have played the handshake so far. */
  ghost predicate Played(p: Parties, s: Run) { Reachable(s) && HostPlays(p, s) && DevicePlays(p, s) }

  /** The reply that the device owes to the request last made. */
  function NextReply(p: Parties, s: Run): seq<u8>
    requires 1 <= |s.requests| <= 2
  {
    if |s.requests| == 1 then p.initResponse.encode(FirstReply(p, s.requests[0].body).1)
    else
      match SecondReply(p, s.requests[0].body, s.requests[1].body)
      case Err => []
      case Ok(r) => p.result.encode(r.response)
  }

  /** Settling a round with the reply that was owed keeps to the handshake. */
  lemma StillPlayed(p: Parties, s: Run, t: Run)
    requires Readable(p) && Played(p, s) && Reachable(t) && Settled(t, s) && 1 <= |s.requests| <= 2
    requires t.device.replies == s.device.replies
      || exists base :: t.device.replies == s.device.replies + [Message(base, Plain(NextReply(p, s)))]
    ensures Played(p, t)
  {
    hide FirstRead, FirstReply, SecondReply, Reachable;
    Safety(s);
    Safety(t);
    if |s.requests| == 2 { SecondRequest(p, s); }
  }

  /** A round that was begun can be finished, with the device playing on. */
  lemma FinishRound(p: Parties, s: Run) returns (steps: seq<Step>, t: Run)
    requires Readable(p) && Played(p, s) && 1 <= |s.requests| <= 2
    ensures Runs(s, steps, t) && Played(p, t) && Settled(t, s)
  {
    hide HostPlays, DevicePlays, NextReply, Inv, Runs, Reachable;
    var base := if |s.requests| == 1 then HANDSHAKE_INIT_RESPONSE else HANDSHAKE_COMPLETION_RESPONSE;
    steps, t := CanAlwaysFinish(s, base, NextReply(p, s));
    RunsOn(s, steps, t);
    Safety(s);
    Safety(t);
    StillPlayed(p, s, t);
  }

  /** Between rounds, with no session yet. */
  lemma BetweenRounds(s: Run)
    requires Reachable(s) && |s.requests| < ROUNDS && (|s.requests| == 0 || s.phase.Idle?)
    ensures s.phase.Idle? && s.session.None?
  {
    ReachableInv(s);
  }

  /** The host's next request of the handshake, and the round behind it. */
  lemma NextRound(p: Parties, s: Run, base: u8, bytes: seq<u8>) returns (steps: seq<Step>, t: Run)
    requires Readable(p) && Played(p, s) && IsDataBase(base)
    requires s.phase.Idle? && s.session.None? && |s.requests| < ROUNDS
    requires HostPlays(p, StartSend(s, Message(base, Plain(bytes))))
    ensures Runs(s, steps, t) && Played(p, t) && t.phase.Idle? && |t.requests| == |s.requests| + 1
    ensures |t.delivered| == |t.requests|
  {
    hide HostPlays, Reachable;
    var step := HostHandshake(base, bytes);
    var s1 := Apply(s, step);
    OneStep(s, step);
    RunsOn(s, [step], s1);
    var tail;
    tail, t := FinishRound(p, s1);
    RunsAppend(s, [step], s1, tail, t);
    steps := [step] + tail;
  }

  lemma Install(p: Parties, s: Run) returns (steps: seq<Step>, t: Run)
    requires Played(p, s) && s.phase.Idle? && |s.requests| == ROUNDS
    ensures Runs(s, steps, t) && Played(p, t) && t.session.Some?
  {
    if s.session.Some? {
      steps, t := [], s;
    } else {
      steps, t := [HostInstall], Apply(s, HostInstall);
      OneStep(s, HostInstall);
      RunsOn(s, steps, t);
    }
  }

  /** The first round, from wherever the run stands. */
  lemma AfterFirstRound(p: Parties, s: Run) returns (steps: seq<Step>, t: Run)
    requires Readable(p) && Played(p, s) && |s.requests| <= 1
    ensures Runs(s, steps, t) && Played(p, t) && t.phase.Idle? && |t.requests| == 1 == |t.delivered|
  {
    hide Reachable, Inv, Runs, DevicePlays;
    if |s.requests| == 0 {
      BetweenRounds(s);
      steps, t := NextRound(p, s, HANDSHAKE_INIT_REQUEST, p.initRequest.encode(HostInit(p.g, p.host)));
    } else {
      steps, t := FinishRound(p, s);
    }
  }

  /** And the second. */
  lemma AfterSecondRound(p: Parties, s: Run) returns (steps: seq<Step>, t: Run)
    requires Readable(p) && SameProperties(p) && Played(p, s) && |s.requests| <= 2
    ensures Runs(s, steps, t) && Played(p, t) && t.phase.Idle? && |t.requests| == 2
  {
    hide Reachable, Inv, Runs, DevicePlays, FirstRead;
    if |s.requests| == 2 {
      steps, t := FinishRound(p, s);
    } else {
      var a, s1 := AfterFirstRound(p, s);
      BetweenRounds(s1);
      FirstRound(p, s1);
      var bytes := p.completion.encode(FirstRead(p, s1.delivered[0]).value.1);
      var b;
      b, t := NextRound(p, s1, HANDSHAKE_COMPLETION_REQUEST, bytes);
      RunsAppend(s, a, s1, b, t);
      steps := a + b;
    }
  }

  /** From every state of a played handshake, whatever was lost on the way, a session can still be reached. */
  lemma HandshakeCanComplete(p: Parties, s: Run) returns (steps: seq<Step>, t: Run)
    requires Readable(p) && SameProperties(p) && Played(p, s) && |s.requests| <= ROUNDS
    ensures Runs(s, steps, t) && Played(p, t) && t.session.Some?
  {
    hide Reachable, Runs, HostPlays, DevicePlays;
    var a, s1 := AfterSecondRound(p, s);
    var b;
    b, t := Install(p, s1);
    RunsAppend(s, a, s1, b, t);
    steps := a + b;
  }
}
