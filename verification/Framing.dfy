/** Segmenting transport payloads into packets, and reassembling them. */
module Framing {
  import opened Results
  import opened Words
  import opened Control
  import opened Crc

  const INIT_HEADER: nat := 5
  const CONT_HEADER: nat := 3
  const CRC_LEN: nat := 4

  function Min(a: nat, b: nat): nat { if a <= b then a else b }

  // ---- What is written ----

  function High(x: nat): u8
    requires x <= 0xFFFF
  {
    (x / 256) as u8
  }

  function Low(x: nat): u8 { (x % 256) as u8 }

  function Word(high: u8, low: u8): nat { high as nat * 256 + low as nat }

  function Header(ctrl: u8, cid: u16, length: nat): (h: seq<u8>)
    requires length <= 0xFFFF
    ensures |h| == INIT_HEADER
  {
    [ctrl, High(cid as nat), Low(cid as nat), High(length), Low(length)]
  }

  function ContHeader(cid: u16): (h: seq<u8>)
    ensures |h| == CONT_HEADER
  {
    [CONTINUATION, High(cid as nat), Low(cid as nat)]
  }

  function Padded(s: seq<u8>, size: nat): (p: seq<u8>)
    requires |s| <= size
    ensures |p| == size
  {
    s + seq(size - |s|, i => 0)
  }

  function Trailer(ctrl: u8, cid: u16, payload: seq<u8>): (t: seq<u8>)
    requires |payload| <= 65531
    ensures |t| == CRC_LEN
  {
    BigEndian(Checksum(Header(ctrl, cid, |payload| + CRC_LEN) + payload) as nat, 4)
  }

  /** The bytes that the packets carry: the payload and its checksum. */
  function Content(ctrl: u8, cid: u16, payload: seq<u8>): seq<u8>
    requires |payload| <= 65531
  {
    payload + Trailer(ctrl, cid, payload)
  }

  function Continuations(size: nat, cid: u16, content: seq<u8>): (ps: seq<seq<u8>>)
    requires size > INIT_HEADER
    ensures forall i :: 0 <= i < |ps| ==> |ps[i]| == size
    decreases |content|
  {
    if content == [] then []
    else
      var take := Min(size - CONT_HEADER, |content|);
      [Padded(ContHeader(cid) + content[..take], size)]
      + Continuations(size, cid, content[take..])
  }

  lemma ContinuationsFrom(size: nat, cid: u16, content: seq<u8>, cursor: nat)
    requires size > INIT_HEADER && cursor < |content|
    ensures var take := Min(size - CONT_HEADER, |content| - cursor);
      Continuations(size, cid, content[cursor..])
      == [Padded(ContHeader(cid) + content[cursor..cursor + take], size)]
       + Continuations(size, cid, content[cursor + take..])
  {
    var take := Min(size - CONT_HEADER, |content| - cursor);
    assert content[cursor..][..take] == content[cursor..cursor + take];
    assert content[cursor..][take..] == content[cursor + take..];
  }

  function Packets(size: nat, cid: u16, ctrl: u8, content: seq<u8>): (ps: seq<seq<u8>>)
    requires size > INIT_HEADER && |content| <= 0xFFFF
    ensures |ps| > 0 && forall i :: 0 <= i < |ps| ==> |ps[i]| == size
  {
    var take := Min(size - INIT_HEADER, |content|);
    [Padded(Header(ctrl, cid, |content|) + content[..take], size)] + Continuations(size, cid, content[take..])
  }

  /** Every packet has exactly the given size. */
  method Segment(packetSize: nat, cid: u16, ctrl: u8, payload: seq<u8>) returns (r: Result<seq<seq<u8>>>)
    ensures r.Err? <==> packetSize <= INIT_HEADER || |payload| > 65531
    ensures r.Ok? ==> r.value == Packets(packetSize, cid, ctrl, Content(ctrl, cid, payload))
    ensures r.Ok? ==> forall i :: 0 <= i < |r.value| ==> |r.value[i]| == packetSize
  {
    hide Checksum, Header, Padded, BigEndian;
    if packetSize <= INIT_HEADER { return Err; }
    var length := |payload| + CRC_LEN;
    if length > 0xFFFF { return Err; }
    var header := Header(ctrl, cid, length);
    var crc := Crc32Ieee(header + payload);
    var content := payload + BigEndian(crc as nat, 4);

    var cursor := Min(packetSize - INIT_HEADER, |content|);
    var packets := [Padded(header + content[0..cursor], packetSize)];
    assert content[0..cursor] == content[..cursor];
    ghost var all := Packets(packetSize, cid, ctrl, content);
    while cursor < |content|
      invariant cursor <= |content|
      invariant packets + Continuations(packetSize, cid, content[cursor..]) == all
    {
      var take := Min(packetSize - CONT_HEADER, |content| - cursor);
      ContinuationsFrom(packetSize, cid, content, cursor);
      packets := packets
        + [Padded(ContHeader(cid) + content[cursor..cursor + take], packetSize)];
      cursor := cursor + take;
    }
    assert content[cursor..] == [];
    r := Ok(packets);
  }

  // ---- What is read ----

  datatype State = State(active: bool, controlByte: u8, cid: u16, expectedLen: nat, buf: seq<u8>) {
    /** A payload in progress is at least as long as its checksum and never complete. */
    predicate Valid() { active ==> CRC_LEN <= expectedLen <= 0xFFFF && |buf| < expectedLen }
  }

  type PushResult = Result<Option<seq<u8>>>

  function Finish(ctrl: u8, cid: u16, content: seq<u8>): PushResult
    requires CRC_LEN <= |content| <= 0xFFFF
  {
    var split := |content| - CRC_LEN;
    if Checksum(Header(ctrl, cid, |content|) + content[..split]) as nat != FromBigEndian(content[split..]) then Err
    else Ok(Some(content[..split]))
  }

  /** Completing the payload once the buffer is full. */
  function Settle(s: State): (State, PushResult)
    requires |s.buf| == s.expectedLen ==> CRC_LEN <= |s.buf| <= 0xFFFF
    requires |s.buf| <= s.expectedLen
  {
    if |s.buf| == s.expectedLen then (s.(active := false, buf := []), Finish(s.controlByte, s.cid, s.buf))
    else (s, Ok(None))
  }

  function Push(s: State, packet: seq<u8>): (r: (State, PushResult))
    requires s.Valid()
    ensures r.0.Valid()
  {
    if packet == [] then (s, Err)
    else if IsContinuation(packet[0]) then
      if !s.active then (s, Ok(None))
      else if |packet| <= CONT_HEADER then (s, Err)
      else
        var take := Min(s.expectedLen - |s.buf|, |packet| - CONT_HEADER);
        Settle(s.(buf := s.buf + packet[CONT_HEADER..CONT_HEADER + take]))
    else if |packet| < INIT_HEADER then (s, Err)
    else
      var length := Word(packet[3], packet[4]);
      if length < CRC_LEN then (s, Err)
      else
        var take := Min(length, |packet| - INIT_HEADER);
        Settle(State(true, packet[0], Word(packet[1], packet[2]) as u16, length,
                     packet[INIT_HEADER..INIT_HEADER + take]))
  }

  function Feed(s: State, packets: seq<seq<u8>>): (r: (State, seq<PushResult>))
    requires s.Valid()
    ensures r.0.Valid() && |r.1| == |packets|
    decreases |packets|
  {
    if packets == [] then (s, [])
    else
      var (s1, o) := Push(s, packets[0]);
      var (s2, os) := Feed(s1, packets[1..]);
      (s2, [o] + os)
  }

  class Reassembler {
    var active: bool
    var controlByte: u8
    var cid: u16
    var expectedLen: nat
    var buf: seq<u8>

    ghost function Abstract(): State
      reads this
    {
      State(active, controlByte, cid, expectedLen, buf)
    }

    constructor ()
      ensures Abstract() == State(false, 0, 0, 0, [])
    {
      active, controlByte, cid, expectedLen, buf := false, 0, 0, 0, [];
    }

    method PushPacket(packet: seq<u8>) returns (r: PushResult)
      requires Abstract().Valid()
      modifies this
      ensures (Abstract(), r) == Push(old(Abstract()), packet)
      ensures Abstract().Valid() && (active ==> |buf| < expectedLen)
    {
      hide Finish, Header;
      if packet == [] { return Err; }
      var ctrl := packet[0];
      if ctrl >= CONTINUATION {
        if !active { return Ok(None); }
        if |packet| <= CONT_HEADER { return Err; }
        var remaining := expectedLen - |buf|;
        var take := Min(remaining, |packet| - CONT_HEADER);
        buf := buf + packet[CONT_HEADER..CONT_HEADER + take];
      } else {
        if |packet| < INIT_HEADER { return Err; }
        var length := Word(packet[3], packet[4]);
        if length < CRC_LEN { return Err; }
        var take := Min(length, |packet| - INIT_HEADER);
        active := true;
        controlByte := ctrl;
        cid := Word(packet[1], packet[2]) as u16;
        expectedLen := length;
        buf := packet[INIT_HEADER..INIT_HEADER + take];
      }
      r := Complete();
    }

    method Complete() returns (r: PushResult)
      requires |buf| == expectedLen ==> CRC_LEN <= |buf| <= 0xFFFF
      requires |buf| <= expectedLen
      modifies this
      ensures (Abstract(), r) == Settle(old(Abstract()))
    {
      if |buf| >= expectedLen {
        var payloadWithCrc := buf;
        buf := [];
        active := false;
        r := CheckAndStrip(payloadWithCrc);
      } else {
        r := Ok(None);
      }
    }

    method CheckAndStrip(payloadWithCrc: seq<u8>) returns (r: PushResult)
      requires CRC_LEN <= expectedLen == |payloadWithCrc| <= 0xFFFF
      ensures r == Finish(controlByte, cid, payloadWithCrc)
    {
      var split := expectedLen - CRC_LEN;
      var header := Header(controlByte, cid, expectedLen);
      var crc := Crc32Ieee(header + payloadWithCrc[..split]);
      if crc as nat != FromBigEndian(payloadWithCrc[split..]) { return Err; }
      r := Ok(Some(payloadWithCrc[..split]));
    }
  }

  // ---- Acceptance is exact ----

  /** The checksum accepts a byte string exactly when it is the content written for the payload it yields. */
  lemma FinishAccepts(ctrl: u8, cid: u16, content: seq<u8>, payload: seq<u8>)
    requires CRC_LEN <= |content| <= 0xFFFF && |payload| <= 65531
    ensures Finish(ctrl, cid, content) == Ok(Some(payload)) <==> content == Content(ctrl, cid, payload)
  {
    var split := |content| - CRC_LEN;
    var tail := content[split..];
    assert content == content[..split] + tail;
    BigEndianOf(tail);
    assert Exp256(4) == 0x1_0000_0000;
    if |payload| == split {
      BigEndianRoundTrip(Checksum(Header(ctrl, cid, |content|) + payload) as nat, 4);
    }
    var c := Content(ctrl, cid, payload);
    assert c[..|payload|] == payload && c[|payload|..] == Trailer(ctrl, cid, payload);
  }

  // ---- Round trip from any state ----

  /** Nothing until the last outcome. */
  ghost predicate OnlyLast(os: seq<PushResult>, last: PushResult) {
    |os| > 0 && os[|os| - 1] == last && forall i :: 0 <= i < |os| - 1 ==> os[i] == Ok(None)
  }

  ghost predicate Delivers(r: (State, seq<PushResult>), end: State, last: PushResult) {
    r.0 == end && OnlyLast(r.1, last)
  }

  lemma OnlyLastCons(o: PushResult, os: seq<PushResult>, last: PushResult)
    requires |os| > 0
    ensures OnlyLast([o] + os, last) <==> o == Ok(None) && OnlyLast(os, last)
  {
    var all := [o] + os;
    assert all[0] == o;
    assert forall i :: 0 <= i < |os| ==> os[i] == all[i + 1];
    assert forall i :: 0 < i < |all| ==> all[i] == os[i - 1];
  }

  lemma DeliversAfter(s: State, ps: seq<seq<u8>>, end: State, last: PushResult)
    requires s.Valid() && |ps| > 1
    ensures Delivers(Feed(s, ps), end, last)
      <==> Push(s, ps[0]).1 == Ok(None) && Delivers(Feed(Push(s, ps[0]).0, ps[1..]), end, last)
  {
    var (s1, o) := Push(s, ps[0]);
    OnlyLastCons(o, Feed(s1, ps[1..]).1, last);
    assert Feed(s, ps).1 == [o] + Feed(s1, ps[1..]).1;
  }

  lemma DeliversAtOnce(s: State, ps: seq<seq<u8>>)
    requires s.Valid() && |ps| == 1
    ensures Delivers(Feed(s, ps), Push(s, ps[0]).0, Push(s, ps[0]).1)
  {
    assert ps[1..] == [];
    assert Feed(s, ps).1 == [Push(s, ps[0]).1] + [];
  }

  lemma HeaderFields(ctrl: u8, cid: u16, length: nat, rest: seq<u8>)
    requires length <= 0xFFFF
    ensures var p := Header(ctrl, cid, length) + rest;
      p[0] == ctrl && Word(p[3], p[4]) == length
      && Word(p[1], p[2]) as u16 == cid && p[INIT_HEADER..] == rest
  {
  }

  lemma FirstPacket(s: State, size: nat, cid: u16, ctrl: u8, content: seq<u8>)
    requires s.Valid() && size > INIT_HEADER && !IsContinuation(ctrl) && CRC_LEN <= |content| <= 0xFFFF
    ensures var take := Min(size - INIT_HEADER, |content|);
      Push(s, Packets(size, cid, ctrl, content)[0]) == Settle(State(true, ctrl, cid, |content|, content[..take]))
  {
    var take := Min(size - INIT_HEADER, |content|);
    var rest := Padded(content[..take], size - INIT_HEADER);
    HeaderFields(ctrl, cid, |content|, rest);
    var p := Packets(size, cid, ctrl, content)[0];
    assert p == Header(ctrl, cid, |content|) + rest;
    assert p[INIT_HEADER..INIT_HEADER + take] == rest[..take] == content[..take];
  }

  lemma NextPacket(s: State, size: nat, cid: u16, content: seq<u8>)
    requires s.Valid() && s.active && size > INIT_HEADER && |content| == s.expectedLen - |s.buf|
    ensures var take := Min(size - CONT_HEADER, |content|);
      Push(s, Continuations(size, cid, content)[0]) == Settle(s.(buf := s.buf + content[..take]))
  {
    var take := Min(size - CONT_HEADER, |content|);
    var p := Continuations(size, cid, content)[0];
    assert p[CONT_HEADER..CONT_HEADER + take] == content[..take];
  }

  lemma {:induction false} FeedContinuations(s: State, size: nat, cid: u16, content: seq<u8>)
    requires s.Valid() && s.active && size > INIT_HEADER && |content| == s.expectedLen - |s.buf|
    ensures Delivers(Feed(s, Continuations(size, cid, content)),
                     s.(active := false, buf := []), Finish(s.controlByte, s.cid, s.buf + content))
    decreases |content|
  {
    hide Finish, Push, Feed, Delivers, Padded;
    var take := Min(size - CONT_HEADER, |content|);
    var ps := Continuations(size, cid, content);
    NextPacket(s, size, cid, content);
    assert ps[1..] == Continuations(size, cid, content[take..]);
    var s1 := s.(buf := s.buf + content[..take]);
    if take == |content| {
      assert content[..take] == content;
      DeliversAtOnce(s, ps);
    } else {
      FeedContinuations(s1, size, cid, content[take..]);
      assert s1.buf + content[take..] == s.buf + content;
      DeliversAfter(s, ps, s.(active := false, buf := []), Finish(s.controlByte, s.cid, s.buf + content));
    }
  }

  /** Whatever was in progress, the packets of a content are silent until the last, which settles it. */
  lemma FeedPackets(s: State, size: nat, cid: u16, ctrl: u8, content: seq<u8>)
    requires s.Valid() && size > INIT_HEADER && !IsContinuation(ctrl) && CRC_LEN <= |content| <= 0xFFFF
    ensures Delivers(Feed(s, Packets(size, cid, ctrl, content)),
                     State(false, ctrl, cid, |content|, []), Finish(ctrl, cid, content))
  {
    hide Finish, Push, Feed, Delivers, Header, Padded;
    var take := Min(size - INIT_HEADER, |content|);
    var ps := Packets(size, cid, ctrl, content);
    FirstPacket(s, size, cid, ctrl, content);
    assert ps[1..] == Continuations(size, cid, content[take..]);
    var s1 := State(true, ctrl, cid, |content|, content[..take]);
    if take == |content| {
      assert content[..take] == content;
      DeliversAtOnce(s, ps);
    } else {
      FeedContinuations(s1, size, cid, content[take..]);
      assert s1.buf + content[take..] == content;
      DeliversAfter(s, ps, State(false, ctrl, cid, |content|, []), Finish(ctrl, cid, content));
    }
  }

  lemma RoundTrip(s: State, size: nat, cid: u16, ctrl: u8, payload: seq<u8>)
    requires s.Valid() && size > INIT_HEADER && !IsContinuation(ctrl) && |payload| <= 65531
    ensures Delivers(Feed(s, Packets(size, cid, ctrl, Content(ctrl, cid, payload))),
                     State(false, ctrl, cid, |payload| + CRC_LEN, []), Ok(Some(payload)))
  {
    FeedPackets(s, size, cid, ctrl, Content(ctrl, cid, payload));
    FinishAccepts(ctrl, cid, Content(ctrl, cid, payload), payload);
  }

  lemma {:induction false} IdleDropsContinuations(s: State, packets: seq<seq<u8>>)
    requires !s.active && forall i :: 0 <= i < |packets| ==> |packets[i]| > 0 && IsContinuation(packets[i][0])
    ensures Feed(s, packets).0 == s && forall i :: 0 <= i < |packets| ==> Feed(s, packets).1[i] == Ok(None)
    decreases |packets|
  {
    if packets == [] {
    } else {
      IdleDropsContinuations(s, packets[1..]);
    }
  }

  lemma {:induction false} AllContinuations(size: nat, cid: u16, content: seq<u8>)
    requires size > INIT_HEADER
    ensures forall p :: p in Continuations(size, cid, content) ==> IsContinuation(p[0])
    decreases |content|
  {
    if content == [] {
    } else {
      AllContinuations(size, cid, content[Min(size - CONT_HEADER, |content|)..]);
    }
  }

  /** An idle reassembler yields the payload exactly when the control byte leaves the continuation bit clear. */
  lemma IdleDeliversIff(s: State, size: nat, cid: u16, ctrl: u8, payload: seq<u8>)
    requires !s.active && size > INIT_HEADER && |payload| <= 65531
    ensures Ok(Some(payload)) in Feed(s, Packets(size, cid, ctrl, Content(ctrl, cid, payload))).1
      <==> !IsContinuation(ctrl)
  {
    var ps := Packets(size, cid, ctrl, Content(ctrl, cid, payload));
    if IsContinuation(ctrl) {
      AllContinuations(size, cid, Content(ctrl, cid, payload)[Min(size - INIT_HEADER, |payload| + CRC_LEN)..]);
      forall i | 0 <= i < |ps| ensures IsContinuation(ps[i][0]) {
        if i > 0 { assert ps[i] in ps[1..]; }
      }
      IdleDropsContinuations(s, ps);
    } else {
      RoundTrip(s, size, cid, ctrl, payload);
    }
  }

  /** An encrypted message whose control byte has its high bit set: packed, and lost. */
  lemma HighBitIsLost(payload: seq<u8>)
    requires |payload| <= 65531
    ensures Ok(Some(payload)) !in Feed(State(false, 0, 0, 0, []), Packets(64, 1, 0x84, Content(0x84, 1, payload))).1
  {
    IdleDeliversIff(State(false, 0, 0, 0, []), 64, 1, 0x84, payload);
  }

  // ---- Burst errors ----

  lemma {:induction false} MessageBitsAppend(a: seq<u8>, b: seq<u8>)
    ensures MessageBits(a + b) == MessageBits(a) + MessageBits(b)
    decreases |a|
  {
    if a == [] {
      assert a + b == b;
    } else {
      assert (a + b)[1..] == a[1..] + b;
      MessageBitsAppend(a[1..], b);
    }
  }

  /** A burst in the payload is the same burst forty bits later in what the checksum covers. */
  lemma BurstBehindHeader(h: seq<u8>, a: seq<u8>, b: seq<u8>, start: nat)
    requires WithinBurst(MessageBits(a), MessageBits(b), start)
    ensures WithinBurst(MessageBits(h + a), MessageBits(h + b), 8 * |h| + start)
  {
    MessageBitsAppend(h, a);
    MessageBitsAppend(h, b);
    var n := |MessageBits(h)|;
    forall i | 0 <= i < |MessageBits(h + a)| && (i < n + start || i >= n + start + 32)
      ensures MessageBits(h + a)[i] == MessageBits(h + b)[i]
    {
      if i >= n { assert MessageBits(a)[i - n] == MessageBits(b)[i - n]; }
    }
  }

  /** Any change of the covered bytes within 32 consecutive bits makes the checksum reject. */
  lemma BurstRejected(ctrl: u8, cid: u16, sent: seq<u8>, got: seq<u8>, start: nat)
    requires |sent| == |got| <= 65531 && sent != got && WithinBurst(MessageBits(sent), MessageBits(got), start)
    ensures Finish(ctrl, cid, got + Trailer(ctrl, cid, sent)) == Err
  {
    var h := Header(ctrl, cid, |sent| + CRC_LEN);
    var content := got + Trailer(ctrl, cid, sent);
    BurstBehindHeader(h, sent, got, start);
    assert (h + sent)[|h|..] == sent && (h + got)[|h|..] == got;
    BurstChangesCrc(h + sent, h + got, 8 * |h| + start);
    assert Exp256(4) == 0x1_0000_0000;
    BigEndianRoundTrip(Checksum(h + sent) as nat, 4);
    assert content[..|got|] == got && content[|got|..] == Trailer(ctrl, cid, sent);
  }

  /** A payload damaged on the way, however it is cut into packets, ends in an error and in nothing else. */
  lemma DamagedPayloadIsRefused(s: State, size: nat, cid: u16, ctrl: u8, sent: seq<u8>, got: seq<u8>, start: nat)
    requires s.Valid() && size > INIT_HEADER && !IsContinuation(ctrl) && |sent| <= 65531
    requires |sent| == |got| && sent != got && WithinBurst(MessageBits(sent), MessageBits(got), start)
    ensures Delivers(Feed(s, Packets(size, cid, ctrl, got + Trailer(ctrl, cid, sent))),
                     State(false, ctrl, cid, |sent| + CRC_LEN, []), Err)
  {
    FeedPackets(s, size, cid, ctrl, got + Trailer(ctrl, cid, sent));
    BurstRejected(ctrl, cid, sent, got, start);
  }

  // ---- One whole message off the transport ----

  /** The control byte and payload of the first message in the chunks, and the chunks behind it; Err when the
      transport runs dry, a packet is malformed, or the message is a transport error. */
  function ReadFramed(s: State, ctrl: u8, chunks: seq<seq<u8>>): (Result<(u8, seq<u8>)>, seq<seq<u8>>)
    requires s.Valid()
    decreases |chunks|
  {
    if chunks == [] then (Err, [])
    else
      var chunk, rest := chunks[0], chunks[1..];
      if chunk == [] then ReadFramed(s, ctrl, rest)
      else
        var c := if IsContinuation(chunk[0]) then ctrl else chunk[0];
        var (s1, o) := Push(s, chunk);
        if o.Err? then (Err, rest)
        else if o.value.None? then ReadFramed(s1, c, rest)
        else (if c == TRANSPORT_ERROR then Err else Ok((c, o.value.value)), rest)
  }

  method ReadMessage(chunks: seq<seq<u8>>) returns (r: Result<(u8, seq<u8>)>, rest: seq<seq<u8>>)
    ensures (r, rest) == ReadFramed(State(false, 0, 0, 0, []), 0, chunks)
  {
    var reasm := new Reassembler();
    var ctrl: u8 := 0;
    var next := 0;
    while next < |chunks|
      invariant 0 <= next <= |chunks|
      invariant reasm.Abstract().Valid()
      invariant ReadFramed(reasm.Abstract(), ctrl, chunks[next..]) == ReadFramed(State(false, 0, 0, 0, []), 0, chunks)
    {
      var chunk := chunks[next];
      next := next + 1;
      if chunk == [] { continue; }
      if chunk[0] < CONTINUATION { ctrl := chunk[0]; }
      var o := reasm.PushPacket(chunk);
      if o.Err? { return Err, chunks[next..]; }
      if o.value.Some? {
        if ctrl == TRANSPORT_ERROR { return Err, chunks[next..]; }
        return Ok((ctrl, o.value.value)), chunks[next..];
      }
    }
    r, rest := Err, [];
  }

  /** Reading through packets that settle only at the last one. */
  lemma {:induction false} ReadThrough(s: State, ctrl: u8, packets: seq<seq<u8>>, rest: seq<seq<u8>>,
                                       end: State, payload: seq<u8>)
    requires s.Valid() && Delivers(Feed(s, packets), end, Ok(Some(payload)))
    requires packets[0] != [] && (IsContinuation(packets[0][0]) || packets[0][0] == ctrl)
    requires forall i :: 0 < i < |packets| ==> packets[i] != [] && IsContinuation(packets[i][0])
    ensures ReadFramed(s, ctrl, packets + rest) == (if ctrl == TRANSPORT_ERROR then Err else Ok((ctrl, payload)), rest)
    decreases |packets|
  {
    assert (packets + rest)[1..] == packets[1..] + rest;
    if |packets| == 1 {
      DeliversAtOnce(s, packets);
      assert packets[1..] + rest == rest;
    } else {
      DeliversAfter(s, packets, end, Ok(Some(payload)));
      ReadThrough(Push(s, packets[0]).0, ctrl, packets[1..], rest, end, payload);
    }
  }

  /** The control byte held before an initiation packet does not matter. */
  lemma FirstByteWins(s: State, ctrl: u8, chunks: seq<seq<u8>>)
    requires s.Valid() && |chunks| > 0 && chunks[0] != [] && !IsContinuation(chunks[0][0])
    ensures ReadFramed(s, ctrl, chunks) == ReadFramed(s, chunks[0][0], chunks)
  {
  }

  /** Chunks that a message may follow: empty ones, and continuations of a message already given up. */
  ghost predicate Stale(chunks: seq<seq<u8>>) {
    forall i :: 0 <= i < |chunks| ==> chunks[i] == [] || IsContinuation(chunks[i][0])
  }

  lemma {:induction false} SkipStale(s: State, ctrl: u8, stale: seq<seq<u8>>, chunks: seq<seq<u8>>)
    requires !s.active && Stale(stale)
    ensures ReadFramed(s, ctrl, stale + chunks) == ReadFramed(s, ctrl, chunks)
    decreases |stale|
  {
    if stale == [] {
      assert stale + chunks == chunks;
    } else {
      assert (stale + chunks)[1..] == stale[1..] + chunks;
      SkipStale(s, ctrl, stale[1..], chunks);
    }
  }

  /** A message written is the message read, behind any stale chunks and with the following chunks untouched. */
  lemma WrittenIsRead(stale: seq<seq<u8>>, size: nat, cid: u16, ctrl: u8, payload: seq<u8>, rest: seq<seq<u8>>)
    requires size > INIT_HEADER && |payload| <= 65531 && !IsContinuation(ctrl) && Stale(stale)
    ensures ReadFramed(State(false, 0, 0, 0, []), 0,
                       stale + (Packets(size, cid, ctrl, Content(ctrl, cid, payload)) + rest))
      == (if ctrl == TRANSPORT_ERROR then Err else Ok((ctrl, payload)), rest)
  {
    var s, ps := State(false, 0, 0, 0, []), Packets(size, cid, ctrl, Content(ctrl, cid, payload));
    var content := Content(ctrl, cid, payload);
    SkipStale(s, 0, stale, ps + rest);
    RoundTrip(s, size, cid, ctrl, payload);
    AllContinuations(size, cid, content[Min(size - INIT_HEADER, |content|)..]);
    forall i | 0 < i < |ps| ensures ps[i] != [] && IsContinuation(ps[i][0]) { assert ps[i] in ps[1..]; }
    FirstByteWins(s, 0, ps + rest);
    ReadThrough(s, ctrl, ps, rest, State(false, ctrl, cid, |payload| + CRC_LEN, []), payload);
  }
}
