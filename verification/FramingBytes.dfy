/** The packets of a payload byte by byte. */
module FramingBytes {
  import opened Results
  import opened Words
  import opened Crc
  import opened Framing

  /** The bytes behind the three of each header, one packet after another. */
  function Behind(ps: seq<seq<u8>>): seq<u8>
    requires forall i :: 0 <= i < |ps| ==> |ps[i]| >= 3
  {
    if ps == [] then [] else ps[0][3..] + Behind(ps[1..])
  }

  function Zeros(n: nat): (z: seq<u8>)
    ensures |z| == n
  {
    seq(n, i => 0)
  }

  /** A continuation of the channel: the mark, and the channel's two bytes, high one first. */
  predicate Continues(p: seq<u8>, cid: u16) {
    |p| >= 3 && p[0] == 0x80 && 256 * p[1] as int + p[2] as int == cid as int
  }

  lemma ContinuationPacket(size: nat, cid: u16, chunk: seq<u8>)
    requires |chunk| + 3 <= size
    ensures var p := Padded(ContHeader(cid) + chunk, size);
      |p| == size && Continues(p, cid) && p[3..] == chunk + Zeros(size - 3 - |chunk|)
  {
  }

  /** Chunks behind one another, with the filling of the last. */
  lemma BehindOne(ps: seq<seq<u8>>, chunk: seq<u8>, rest: seq<u8>, filled: nat, zeros: nat)
    requires (forall i :: 0 <= i < |ps| ==> |ps[i]| >= 3) && ps != [] && ps[0][3..] == chunk + Zeros(filled)
    requires Behind(ps[1..]) == rest + Zeros(zeros) && (filled == 0 || (rest == [] && zeros == 0))
    ensures Behind(ps) == chunk + rest + Zeros(filled + zeros)
  {
    if filled == 0 {
      assert chunk + Zeros(0) == chunk;
      assert chunk + (rest + Zeros(zeros)) == chunk + rest + Zeros(zeros);
    } else {
      assert rest + Zeros(0) == [];
      assert chunk + Zeros(filled) + [] == chunk + [] + Zeros(filled);
    }
  }

  lemma {:induction false} ContinuationBytes(size: nat, cid: u16, content: seq<u8>) returns (zeros: nat)
    requires size > 5
    ensures var ps := Continuations(size, cid, content);
      (forall i :: 0 <= i < |ps| ==> |ps[i]| == size && Continues(ps[i], cid))
      && Behind(ps) == content + Zeros(zeros)
      && zeros < size - 3 && (content == [] ==> ps == [] && zeros == 0)
    decreases |content|
  {
    hide Padded, ContHeader, Continues, Zeros, Behind;
    if content == [] {
      zeros := 0;
      NothingBehind();
    } else {
      var take := Min(size - 3, |content|);
      var ps := Continuations(size, cid, content);
      var more := ContinuationBytes(size, cid, content[take..]);
      var tail := Continuations(size, cid, content[take..]);
      assert ps[1..] == tail;
      ContinuationPacket(size, cid, content[..take]);
      assert content == content[..take] + content[take..];
      assert forall i :: 1 <= i < |ps| ==> ps[i] == tail[i - 1];
      BehindOne(ps, content[..take], content[take..], size - 3 - take, more);
      zeros := size - 3 - take + more;
    }
  }

  lemma NothingBehind()
    ensures Behind([]) == [] + Zeros(0)
  {
  }

  lemma FirstPacket(size: nat, header: seq<u8>, chunk: seq<u8>)
    requires |header| == 5 && |chunk| + 5 <= size
    ensures var p := Padded(header + chunk, size);
      |p| == size && p[..5] == header && p[5..] == chunk + Zeros(size - 5 - |chunk|)
  {
  }

  lemma NoBytes()
    ensures forall x :: BigEndian(x, 0) == []
  {
  }

  lemma TrailerIsWritten(ctrl: u8, cid: u16, payload: seq<u8>)
    requires |payload| <= 65531
    ensures var n := |payload| + 4;
      var header := [ctrl, (cid as int / 256) as u8, (cid as int % 256) as u8, (n / 256) as u8, (n % 256) as u8];
      var crc := Checksum(header + payload) as nat;
      Header(ctrl, cid, n) == header
      && Trailer(ctrl, cid, payload)
         == [(crc / 0x100_0000) as u8, (crc / 0x1_0000 % 256) as u8, (crc / 0x100 % 256) as u8, (crc % 256) as u8]
  {
    hide Checksum, BigEndian;
    BigEndianLastFour(Checksum(Header(ctrl, cid, |payload| + 4) + payload) as nat, 4);
    NoBytes();
  }

  lemma JoinFirst(first: seq<u8>, rest: seq<u8>, behind: seq<u8>, filled: nat, zeros: nat)
    requires behind == rest + Zeros(zeros) && (filled == 0 || (rest == [] && zeros == 0))
    ensures first + Zeros(filled) + behind == first + rest + Zeros(filled + zeros)
  {
  }

  /** What the payload's packets say: five bytes of header, then continuations with three, and behind the headers the
      payload, the checksum of header and payload, and zeros that do not fill a packet of their own. */
  lemma PacketsAreWritten(size: nat, cid: u16, ctrl: u8, payload: seq<u8>) returns (zeros: nat)
    requires size > 5 && |payload| <= 65531
    ensures var n := |payload| + 4;
      var header := [ctrl, (cid as int / 256) as u8, (cid as int % 256) as u8, (n / 256) as u8, (n % 256) as u8];
      var crc := Checksum(header + payload) as nat;
      var ps := Packets(size, cid, ctrl, Content(ctrl, cid, payload));
      && |ps[0]| == size && ps[0][..5] == header
      && (forall i :: 1 <= i < |ps| ==> |ps[i]| == size && Continues(ps[i], cid))
      && ps[0][5..] + Behind(ps[1..])
         == payload
            + [(crc / 0x100_0000) as u8, (crc / 0x1_0000 % 256) as u8, (crc / 0x100 % 256) as u8, (crc % 256) as u8]
            + Zeros(zeros)
      && (|ps| > 1 ==> zeros < size - 3)
  {
    hide Checksum, Trailer, Padded, Continuations, Zeros, Behind, Continues;
    TrailerIsWritten(ctrl, cid, payload);
    var content := Content(ctrl, cid, payload);
    var take := Min(size - 5, |content|);
    FirstPacket(size, Header(ctrl, cid, |content|), content[..take]);
    var more := ContinuationBytes(size, cid, content[take..]);
    var ps := Packets(size, cid, ctrl, content);
    var tail := Continuations(size, cid, content[take..]);
    assert ps[1..] == tail;
    assert forall i :: 1 <= i < |ps| ==> ps[i] == tail[i - 1];
    JoinFirst(content[..take], content[take..], Behind(tail), size - 5 - take, more);
    assert content == content[..take] + content[take..];
    zeros := size - 5 - take + more;
  }

  /** Bytes that a packet adds to a payload of the given length, as far as they are needed. */
  function With(length: nat, buf: seq<u8>, bytes: seq<u8>): seq<u8>
    requires |buf| <= length
  {
    buf + if |bytes| <= length - |buf| then bytes else bytes[..length - |buf|]
  }

  ghost predicate Grown(r: (State, PushResult), ctrl: u8, cid: u16, length: nat, buf: seq<u8>, bytes: seq<u8>) {
    |buf| <= length
    && var all := With(length, buf, bytes);
       if |all| < length then r == (State(true, ctrl, cid, length, all), Ok(None))
       else
         r.0 == State(false, ctrl, cid, length, []) && r.1 != Ok(None)
         && forall payload :: |payload| <= 65531 ==> (r.1 == Ok(Some(payload)) <==> all == Content(ctrl, cid, payload))
  }

  lemma Grows(ctrl: u8, cid: u16, length: nat, buf: seq<u8>, bytes: seq<u8>)
    requires 4 <= length <= 0xFFFF && |buf| <= length
    ensures var take := Min(length - |buf|, |bytes|);
      Grown(Settle(State(true, ctrl, cid, length, buf + bytes[..take])), ctrl, cid, length, buf, bytes)
  {
    hide Content;
    var all := With(length, buf, bytes);
    assert all == buf + bytes[..Min(length - |buf|, |bytes|)];
    if |all| == length {
      forall payload: seq<u8> | |payload| <= 65531
        ensures Finish(ctrl, cid, all) == Ok(Some(payload)) <==> all == Content(ctrl, cid, payload)
      {
        FinishAccepts(ctrl, cid, all, payload);
      }
    }
  }

  lemma ContinuationGrows(s: State, p: seq<u8>)
    requires s.Valid() && |p| > 3 && p[0] >= 0x80 && s.active
    ensures Grown(Push(s, p), s.controlByte, s.cid, s.expectedLen, s.buf, p[3..])
  {
    hide Settle, Grown;
    var take := Min(s.expectedLen - |s.buf|, |p[3..]|);
    assert p[3..3 + take] == p[3..][..take];
    Grows(s.controlByte, s.cid, s.expectedLen, s.buf, p[3..]);
  }

  lemma InitiationGrows(s: State, p: seq<u8>)
    requires s.Valid() && |p| >= 5 && p[0] < 0x80 && 256 * p[3] as int + p[4] as int >= 4
    ensures var channel, length := (256 * p[1] as int + p[2] as int) as u16, 256 * p[3] as int + p[4] as int;
      Grown(Push(s, p), p[0], channel, length, [], p[5..])
  {
    hide Settle, Grown;
    var length := 256 * p[3] as int + p[4] as int;
    var take := Min(length, |p[5..]|);
    assert p[5..5 + take] == [] + p[5..][..take];
    Grows(p[0], (256 * p[1] as int + p[2] as int) as u16, length, [], p[5..]);
  }

  /** What a packet does to a reassembler, by its bytes: the four kinds that change nothing, and otherwise the payload
      that grows until it is as long as its header says, and is then delivered exactly if a segmenter writes it. */
  lemma PacketIsTaken(s: State, p: seq<u8>)
    requires s.Valid()
    ensures p == [] ==> Push(s, p) == (s, Err)
    ensures p != [] && p[0] >= 0x80 && !s.active ==> Push(s, p) == (s, Ok(None))
    ensures p != [] && p[0] >= 0x80 && s.active && |p| <= 3 ==> Push(s, p) == (s, Err)
    ensures p != [] && p[0] < 0x80 && (|p| < 5 || 256 * p[3] as int + p[4] as int < 4) ==> Push(s, p) == (s, Err)
    ensures p != [] && p[0] >= 0x80 && s.active && |p| > 3 ==>
      Grown(Push(s, p), s.controlByte, s.cid, s.expectedLen, s.buf, p[3..])
    ensures |p| >= 5 && p[0] < 0x80 && 256 * p[3] as int + p[4] as int >= 4 ==>
      Grown(Push(s, p), p[0], (256 * p[1] as int + p[2] as int) as u16, 256 * p[3] as int + p[4] as int, [], p[5..])
  {
    hide Settle, Grown;
    if p != [] && p[0] >= 0x80 && s.active && |p| > 3 { ContinuationGrows(s, p); }
    if |p| >= 5 && p[0] < 0x80 && 256 * p[3] as int + p[4] as int >= 4 { InitiationGrows(s, p); }
  }
}
