/** From the driver's frames down to the chunks of the transport. */
module Wire {
  import opened Results
  import opened Words
  import opened Control
  import opened Session
  import opened Connection
  import opened Framing
  import opened Protocol
  import opened ProtocolRuns
  import opened DriverRuns

  // ---- Many messages, one after another ----

  type Raw = (u8, seq<u8>)

  /** Messages the framing layer takes and gives back. */
  predicate Sendable(m: Raw) { IsOrdinary(m.0) && |m.1| <= 65531 }

  ghost predicate AllSendable(ms: seq<Raw>) { forall i :: 0 <= i < |ms| ==> Sendable(ms[i]) }

  /** The chunks of messages written one after another. */
  ghost function Written(size: nat, cid: u16, ms: seq<Raw>): seq<seq<u8>>
    requires size > INIT_HEADER && AllSendable(ms)
    decreases |ms|
  {
    if ms == [] then []
    else Packets(size, cid, ms[0].0, Content(ms[0].0, cid, ms[0].1)) + Written(size, cid, ms[1..])
  }

  /** Reading n messages, each with a fresh reassembler. */
  function ReadMany(chunks: seq<seq<u8>>, n: nat): (Result<seq<Raw>>, seq<seq<u8>>)
    decreases n
  {
    if n == 0 then (Ok([]), chunks)
    else
      var (m, rest) := ReadFramed(State(false, 0, 0, 0, []), 0, chunks);
      if m.Err? then (Err, rest)
      else
        var (ms, behind) := ReadMany(rest, n - 1);
        (if ms.Err? then Err else Ok([m.value] + ms.value), behind)
  }

  /** Messages written one after another are read back, one call each, and the chunks behind them are untouched. */
  lemma {:induction false} ManyAreRead(size: nat, cid: u16, ms: seq<Raw>, rest: seq<seq<u8>>)
    requires size > INIT_HEADER && AllSendable(ms)
    ensures ReadMany(Written(size, cid, ms) + rest, |ms|) == (Ok(ms), rest)
    decreases |ms|
  {
    hide ReadFramed, Packets, Trailer;
    if ms == [] {
      assert Written(size, cid, ms) + rest == rest;
    } else {
      var first := Packets(size, cid, ms[0].0, Content(ms[0].0, cid, ms[0].1));
      var later := Written(size, cid, ms[1..]);
      WrittenIsRead([], size, cid, ms[0].0, ms[0].1, later + rest);
      assert [] + (first + (later + rest)) == Written(size, cid, ms) + rest;
      ManyAreRead(size, cid, ms[1..], rest);
      assert ms == [ms[0]] + ms[1..];
    }
  }

  // ---- Frames ----

  /** How payloads become bytes: handshake bytes as they are, ciphertexts as the AEAD gives them. */
  datatype Link<!K> = Link(size: nat, cid: u16, body: Coding<Body<K>>)

  ghost predicate Faithful<K(!new)>(l: Link<K>) {
    l.size > INIT_HEADER && Inverts(l.body)
  }

  function Raws<K>(l: Link<K>, fs: seq<Frame<K>>): (ms: seq<Raw>)
    ensures |ms| == |fs|
  {
    seq(|fs|, i requires 0 <= i < |fs| => (fs[i].ctrl, l.body.encode(fs[i].payload)))
  }

  /** Frames that the link can carry: short enough, and no error report among them. */
  ghost predicate Carries<K>(l: Link<K>, fs: seq<Frame<K>>) {
    l.size > INIT_HEADER && AllSendable(Raws(l, fs))
  }

  ghost function Chunks<K>(l: Link<K>, fs: seq<Frame<K>>): seq<seq<u8>>
    requires Carries(l, fs)
  {
    Written(l.size, l.cid, Raws(l, fs))
  }

  function Unraw<K>(l: Link<K>, ms: seq<Raw>): (fs: seq<Frame<K>>)
    ensures |fs| == |ms|
  {
    seq(|ms|, i requires 0 <= i < |ms| => Frame(ms[i].0, l.body.decode(ms[i].1)))
  }

  function FramesRead<K>(l: Link<K>, chunks: seq<seq<u8>>, n: nat): (Result<seq<Frame<K>>>, seq<seq<u8>>) {
    var (ms, rest) := ReadMany(chunks, n);
    if ms.Err? then (Err, rest)
    else (Ok(Unraw(l, ms.value)), rest)
  }

  lemma ReadBack<K(!new)>(l: Link<K>, fs: seq<Frame<K>>)
    requires Faithful(l)
    ensures Unraw(l, Raws(l, fs)) == fs
  {
    var back := Unraw(l, Raws(l, fs));
    forall i | 0 <= i < |fs| ensures back[i] == fs[i] {
      assert l.body.decode(l.body.encode(fs[i].payload)) == fs[i].payload;
    }
  }

  /** Frames put on the link are the frames read off it. */
  lemma FramesAreRead<K(!new)>(l: Link<K>, fs: seq<Frame<K>>, rest: seq<seq<u8>>)
    requires Faithful(l) && Carries(l, fs)
    ensures FramesRead(l, Chunks(l, fs) + rest, |fs|) == (Ok(fs), rest)
  {
    hide Written, ReadMany, Raws, AllSendable;
    ManyAreRead(l.size, l.cid, Raws(l, fs), rest);
    ReadBack(l, fs);
  }

  // ---- The frames of a run ----

  ghost predicate AllOrdinary<K>(fs: seq<Frame<K>>) { forall i :: 0 <= i < |fs| ==> IsOrdinary(fs[i].ctrl) }

  /** Whatever the host hears in a run is an acknowledgement or data. */
  lemma {:induction false} HeardIsOrdinary<K(!new)>(s: System<K>, steps: seq<Step>, t: System<K>)
    requires Inv(s) && Runs(s, steps, t)
    ensures AllOrdinary(AllHeard(s, steps, t))
    decreases |steps|
  {
    hide Inv, Apply;
    if steps == [] {
    } else {
      StepKeepsInv(s, steps[0]);
      if steps[0].HostRead? { HeadIsOrdinary(s); }
      HeardIsOrdinary(Apply(s, steps[0]), steps[1..], t);
    }
  }

  lemma {:induction false} ConversationIsOrdinary<K(!new)>(s: System<K>, turns: seq<Turn<K>>, t: System<K>)
    requires Inv(s) && Conversation(s, turns, t)
    ensures AllOrdinary(ConversationHeard(s, turns, t))
    decreases |turns|
  {
    hide Inv, Runs, AllHeard;
    if turns == [] {
    } else {
      var steps := [HostRequest(turns[0].request)] + turns[0].steps;
      RunKeepsInv(s, steps, turns[0].end);
      HeardIsOrdinary(s, steps, turns[0].end);
      ConversationIsOrdinary(turns[0].end, turns[1..], t);
    }
  }

  ghost predicate Short<K>(l: Link<K>, fs: seq<Frame<K>>) {
    forall i :: 0 <= i < |fs| ==> |l.body.encode(fs[i].payload)| <= 65531
  }

  /**
   * A whole transceive over the chunks: if the transport delivers what the device's frames were cut into, reading them
   * and running the driver returns the device's reply to the last request, and leaves the chunks behind untouched.
   */
  lemma TransceiveOverChunks<K(!new)>(l: Link<K>, s: System<K>, turns: seq<Turn<K>>, t: System<K>, c: Conn<K>,
                                      behind: seq<seq<u8>>, messageType: u16, protobuf: seq<u8>, buttonAck: seq<u8>)
    requires Inv(s) && s.session.Some? && SameLink(c, s) && Conversation(s, turns, t)
    requires Asks(turns, c.activeSessionId, messageType, protobuf, buttonAck)
    requires |s.texts| <= |t.texts| && ButtonsThenReply(t.texts[|s.texts|..])
    requires Faithful(l) && Short(l, ConversationHeard(s, turns, t))
    ensures var heard := ConversationHeard(s, turns, t);
      Carries(l, heard)
      && (var (frames, rest) := FramesRead(l, Chunks(l, heard) + behind, |heard|);
          rest == behind && frames.Ok? && t.device.replies != []
          && t.device.replies[|t.device.replies| - 1].body.Sealed?
          && Transceive(c.(inbox := frames.value), messageType, protobuf, buttonAck).1
             == Outcome(t.device.replies[|t.device.replies| - 1].body.text))
  {
    hide Inv, Conversation, ConversationHeard, Transceive, Outcome, FramesRead, Written;
    var heard := ConversationHeard(s, turns, t);
    ConversationIsOrdinary(s, turns, t);
    FramesAreRead(l, heard, behind);
    assert heard + [] == heard;
    TransceiveReturnsTheReply(s, turns, t, c.(inbox := heard), [], messageType, protobuf, buttonAck);
  }
}
