/** What holds over whole runs of the two parties, and what a run can always still reach. */
module ProtocolRuns {
  import opened Results
  import opened Words
  import opened Control
  import opened Session
  import opened Connection
  import opened Protocol

  /** The steps lead from s to t. */
  ghost predicate Runs<K(!new)>(s: System<K>, steps: seq<Step>, t: System<K>)
    decreases |steps|
  {
    if steps == [] then s == t else Enabled(s, steps[0]) && Runs(Apply(s, steps[0]), steps[1..], t)
  }

  lemma {:induction false} RunKeepsInv<K(!new)>(s: System<K>, steps: seq<Step>, t: System<K>)
    requires Inv(s) && Runs(s, steps, t)
    ensures Inv(t)
    decreases |steps|
  {
    if steps == [] {
    } else {
      StepKeepsInv(s, steps[0]);
      RunKeepsInv(Apply(s, steps[0]), steps[1..], t);
    }
  }

  ghost predicate Reachable<K(!new)>(t: System<K>) {
    exists steps: seq<Step> :: Runs(Initial(t.keyRequest, t.keyResponse), steps, t)
  }

  lemma ReachableInv<K(!new)>(t: System<K>)
    requires Reachable(t)
    ensures Inv(t)
  {
    var steps :| Runs(Initial(t.keyRequest, t.keyResponse), steps, t);
    InitialInv(t.keyRequest, t.keyResponse);
    RunKeepsInv(Initial(t.keyRequest, t.keyResponse), steps, t);
  }

  /**
   * Safety: what recv_data returned is a prefix of what the device sent, what the device accepted is a
   * prefix of what the host sent, the two never drift apart by more than one, and nothing fails.
   */
  lemma Safety<K(!new)>(t: System<K>)
    requires Reachable(t)
    ensures Prefix(t.delivered, t.device.replies) && Prefix(t.device.accepted, t.requests)
    ensures |t.delivered| <= |t.device.replies| <= |t.device.accepted| <= |t.requests| <= |t.delivered| + 1
    ensures t.phase.Idle? ==> |t.delivered| == |t.requests|
    ensures !t.phase.Failed?
  {
    ReachableInv(t);
  }

  /**
   * The k-th application text the host opened is the device's reply to its k-th application request,
   * both counters equal their message counts, and no ciphertext the device accepted fails to open.
   */
  lemma SessionInStep<K(!new)>(t: System<K>)
    requires Reachable(t) && t.session.Some?
    ensures |t.texts| + ROUNDS == |t.delivered| <= |t.device.replies| && |t.requests| >= ROUNDS
    ensures forall k :: 0 <= k < |t.texts| ==>
      t.device.replies[k + ROUNDS].body.Sealed? && t.texts[k] == t.device.replies[k + ROUNDS].body.text
    ensures t.session.value
      == Endpoint(t.keyRequest, t.keyResponse, NonceAfter(0, |t.requests| - ROUNDS), NonceAfter(1, |t.texts|))
    ensures forall k :: ROUNDS <= k < |t.device.accepted| ==>
              AeadOpen(t.keyRequest, IvFromNonce(NonceAfter(0, k - ROUNDS)), t.device.accepted[k]).Ok?
  {
    ReachableInv(t);
    forall k | ROUNDS <= k < |t.device.accepted|
      ensures AeadOpen(t.keyRequest, IvFromNonce(NonceAfter(0, k - ROUNDS)), t.device.accepted[k]).Ok?
    {
      assert SealedAt(t.requests[k], t.keyRequest, 0, k) && t.device.accepted[k] == t.requests[k].body;
    }
    forall k | 0 <= k < |t.texts|
      ensures t.device.replies[k + ROUNDS].body.Sealed? && t.texts[k] == t.device.replies[k + ROUNDS].body.text
    {
      assert t.delivered[k + ROUNDS] == t.device.replies[k + ROUNDS].body;
    }
  }

  /** The stash is empty whenever a send may start, and the bits are the parities of the counts. */
  lemma StashAndBits<K(!new)>(t: System<K>)
    requires Reachable(t)
    ensures t.phase.Idle? || t.phase.Sending? ==> t.host.pending.None?
    ensures Completed(t) >= 0 && t.host.sendSeq == Parity(Completed(t)) && t.host.recvSeq == Parity(Taken(t))
  {
    ReachableInv(t);
  }

  /** An acknowledgement that completes a send proves the device accepted that request: no stale one can. */
  lemma ExplicitAckMeansAccepted<K(!new)>(t: System<K>)
    requires Reachable(t) && t.phase.Sending? && t.toHost != [] && IsAck(t.toHost[0].frame.ctrl)
    requires HostReads(t).phase.Receiving?
    ensures |t.device.accepted| == |t.requests| && t.toHost[0].exchange == |t.requests| - 1
  {
    ReachableInv(t);
    var k: nat :| InvAt(t, k);
    PacketBits(t.toHost[0], Taken(t), |t.device.accepted|, t.device.replies, t.keyResponse);
    SendReadShape(t);
  }

  /** Which frames complete a send safely, in terms of what the host sees: an acknowledgement, or data with the bit it
      expects. Exactly those belong to the request being sent, which the device has then accepted. */
  lemma SafeCompletionIff<K(!new)>(t: System<K>)
    requires Reachable(t) && t.phase.Sending? && t.toHost != [] && HostReads(t).phase.Receiving?
    ensures var f := t.toHost[0].frame;
      t.toHost[0].exchange == |t.requests| - 1 <==> IsAck(f.ctrl) || SeqOf(f.ctrl) == t.host.recvSeq
    ensures var f := t.toHost[0].frame;
      IsAck(f.ctrl) || SeqOf(f.ctrl) == t.host.recvSeq ==> |t.device.accepted| == |t.requests|
  {
    ReachableInv(t);
    var k: nat :| InvAt(t, k);
    PacketBits(t.toHost[0], Taken(t), |t.device.accepted|, t.device.replies, t.keyResponse);
    SendReadShape(t);
  }

  lemma RunsAppend<K(!new)>(s: System<K>, a: seq<Step>, t: System<K>, b: seq<Step>, u: System<K>)
    requires Runs(s, a, t) && Runs(t, b, u)
    ensures Runs(s, a + b, u)
    decreases |a|
  {
    hide Apply, Enabled;
    if a == [] {
      assert a + b == b;
    } else {
      RunsAppend(Apply(s, a[0]), a[1..], t, b, u);
      assert (a + b)[1..] == a[1..] + b;
    }
  }

  lemma {:induction false} KeysStay<K(!new)>(s: System<K>, steps: seq<Step>, t: System<K>)
    requires Runs(s, steps, t)
    ensures t.keyRequest == s.keyRequest && t.keyResponse == s.keyResponse
    decreases |steps|
  {
    if steps == [] {
    } else {
      KeysStay(Apply(s, steps[0]), steps[1..], t);
    }
  }

  lemma RunsOn<K(!new)>(s: System<K>, steps: seq<Step>, t: System<K>)
    requires Reachable(s) && Runs(s, steps, t)
    ensures Reachable(t)
  {
    KeysStay(s, steps, t);
    var before :| Runs(Initial(s.keyRequest, s.keyResponse), before, s);
    RunsAppend(Initial(s.keyRequest, s.keyResponse), before, s, steps, t);
  }

  lemma OneStep<K(!new)>(s: System<K>, step: Step)
    requires Enabled(s, step)
    ensures Runs(s, [step], Apply(s, step))
  {
    assert Runs(Apply(s, step), [], Apply(s, step));
    assert [step][1..] == [];
  }

  // ---- An implicit acknowledgement proves nothing about delivery ----

  lemma TwoSteps<K(!new)>(s: System<K>, a: Step, b: Step)
    requires Enabled(s, a) && Enabled(Apply(s, a), b)
    ensures Runs(s, [a, b], Apply(Apply(s, a), b))
  {
    var s1 := Apply(s, a);
    OneStep(s, a);
    OneStep(s1, b);
    RunsAppend(s, [a], s1, [b], Apply(s1, b));
    assert [a] + [b] == [a, b];
  }

  /** The first request, and its reply sent twice. */
  const DOUBLED_REPLY: seq<Step> := [HostHandshake(0, []), DeviceRead] + [DeviceReply(1, []), DeviceResend]

  function Reply0(): Packet<int> { Packet(Frame(WithSeq(1, false), Plain([])), 0) }

  function AfterRequest(): System<int> {
    Initial<int>(0, 1).(phase := Sending, requests := [Message(0, Plain([]))],
                           device := Device(true, false, false, [Plain([])], []))
  }

  function AfterDoubledReply(): System<int> {
    AfterRequest().(toHost := [Reply0(), Reply0()],
                    device := Device(true, false, true, [Plain([])], [Message(1, Plain([]))]))
  }

  function AfterTake(): System<int> {
    AfterDoubledReply().(host := Host(true, true, None), phase := Idle, toHost := [Reply0()], delivered := [Plain([])],
                         toDevice := [Packet(Frame(AckFor(false), Plain([])), 0)])
  }

  lemma ReachRequest()
    ensures Runs(Initial<int>(0, 1), [HostHandshake(0, []), DeviceRead], AfterRequest())
  {
    var s0 := Initial<int>(0, 1);
    FrameBits(0, 0);
    TwoSteps(s0, HostHandshake(0, []), DeviceRead);
    assert Apply(Apply(s0, HostHandshake(0, [])), DeviceRead) == AfterRequest();
  }

  lemma ReachReplies()
    ensures Runs(AfterRequest(), [DeviceReply(1, []), DeviceResend], AfterDoubledReply())
  {
    TwoSteps(AfterRequest(), DeviceReply(1, []), DeviceResend);
  }

  lemma ReachDoubledReply()
    ensures Runs(Initial<int>(0, 1), DOUBLED_REPLY, AfterDoubledReply())
  {
    hide Runs;
    ReachRequest();
    ReachReplies();
    RunsAppend(Initial<int>(0, 1), [HostHandshake(0, []), DeviceRead], AfterRequest(),
               [DeviceReply(1, []), DeviceResend], AfterDoubledReply());
  }

  lemma ReachTake()
    ensures Runs(AfterDoubledReply(), [HostRead, HostTake], AfterTake())
  {
    FrameBits(1, 0);
    TwoSteps(AfterDoubledReply(), HostRead, HostTake);
  }

  lemma ReachUnsafe() returns (t: System<int>)
    ensures Runs(AfterTake(), [HostHandshake(2, []), HostRead], t) && t.keyRequest == 0 && t.keyResponse == 1
    ensures t.phase.Receiving? && t.host.pending.None? && |t.requests| == 2 && |t.device.accepted| == 1
  {
    FrameBits(1, 0);
    TwoSteps(AfterTake(), HostHandshake(2, []), HostRead);
    t := Apply(Apply(AfterTake(), HostHandshake(2, [])), HostRead);
  }

  /** A resent reply completes the next send while that request is still in flight. */
  lemma ImplicitAckBeforeDelivery() returns (t: System<int>)
    ensures Reachable(t) && t.phase.Receiving? && t.host.pending.None?
    ensures |t.requests| == 2 && |t.device.accepted| == 1
  {
    hide Runs;
    var s0 := Initial<int>(0, 1);
    ReachDoubledReply();
    ReachTake();
    t := ReachUnsafe();
    RunsAppend(s0, DOUBLED_REPLY, AfterDoubledReply(), [HostRead, HostTake], AfterTake());
    RunsAppend(s0, DOUBLED_REPLY + [HostRead, HostTake], AfterTake(), [HostHandshake(2, []), HostRead], t);
  }

  // ---- Every reachable state can still finish its exchange ----

  /** The host's current exchange is over. */
  ghost predicate Settled<K>(s: System<K>, s0: System<K>) {
    s.phase.Idle? && s.requests == s0.requests && |s.delivered| == |s.requests|
  }

  lemma ReadShortens<K(!new)>(s: System<K>)
    requires s.toHost != []
    ensures HostReads(s).toHost == s.toHost[1..] && HostReads(s).requests == s.requests
    ensures HostReads(s).device == s.device && HostReads(s).keyResponse == s.keyResponse
  {
  }

  ghost predicate SameDevice<K>(s: System<K>, t: System<K>) { t.device == s.device && t.keyResponse == s.keyResponse }

  lemma NeverFailed<K(!new)>(s: System<K>)
    requires Inv(s)
    ensures !s.phase.Failed?
  {
  }

  /** The host reads until its exchange can be taken or nothing is left to read. */
  lemma {:induction false} DrainToHost<K(!new)>(s: System<K>) returns (steps: seq<Step>, t: System<K>)
    requires Inv(s) && !s.phase.Idle?
    ensures Inv(t) && Runs(s, steps, t) && t.requests == s.requests && SameDevice(s, t)
    ensures t.phase.Idle? || t.host.pending.Some? || t.toHost == []
    decreases |s.toHost|
  {
    hide Inv, HostReads;
    NeverFailed(s);
    if s.toHost != [] && s.host.pending.None? { ReadShortens(s); }
    if s.host.pending.Some? || s.toHost == [] {
      steps, t := [], s;
    } else {
      var s1 := Apply(s, HostRead);
      StepKeepsInv(s, HostRead);
      OneStep(s, HostRead);
      if s1.phase.Idle? {
        steps, t := [HostRead], s1;
      } else {
        var rest: seq<Step>;
        rest, t := DrainToHost(s1);
        RunsAppend(s, [HostRead], s1, rest, t);
        steps := [HostRead] + rest;
      }
    }
  }

  /** The device reads everything sent to it; nothing new is sent to the host. */
  lemma {:induction false} DrainToDevice<K(!new)>(s: System<K>) returns (steps: seq<Step>, t: System<K>)
    requires Inv(s) && s.toHost == []
    ensures Inv(t) && Runs(s, steps, t) && t.requests == s.requests && t.toHost == [] && t.toDevice == []
    ensures t.phase == s.phase && t.host == s.host && t.delivered == s.delivered
    ensures t.device.replies == s.device.replies && t.keyResponse == s.keyResponse
    decreases |s.toDevice|
  {
    hide Inv;
    if s.toDevice == [] {
      steps, t := [], s;
    } else {
      var s1 := Apply(s, DeviceRead);
      StepKeepsInv(s, DeviceRead);
      OneStep(s, DeviceRead);
      var rest: seq<Step>;
      rest, t := DrainToDevice(s1);
      RunsAppend(s, [DeviceRead], s1, rest, t);
      steps := [DeviceRead] + rest;
    }
  }

  /** With both queues empty the host's request has been accepted, and its reply is still to be made or resent. */
  lemma AwaitedReplyFacts<K(!new)>(s: System<K>)
    requires Inv(s) && !s.phase.Idle? && s.host.pending.None? && s.toHost == [] && s.toDevice == []
    ensures |s.device.accepted| == Taken(s) + 1 && Taken(s) <= |s.device.replies| <= Taken(s) + 1 && !s.phase.Failed?
    ensures |s.device.replies| < |s.device.accepted| ==> !s.device.outstanding
    ensures |s.device.replies| == |s.device.accepted| ==> s.device.outstanding
    ensures forall i :: 0 <= i < |s.device.replies| ==> IsDataBase(s.device.replies[i].base)
  {
    var k: nat :| InvAt(s, k);
    forall i | 0 <= i < |s.device.replies| ensures IsDataBase(s.device.replies[i].base) {
      assert SealedAt(s.device.replies[i], s.keyResponse, 1, i);
    }
  }

  /** The device's replies, one more if it owes one. */
  ghost predicate Replied<K>(s: System<K>, base: u8, data: seq<u8>, t: System<K>) {
    t.device.replies == s.device.replies || t.device.replies == s.device.replies + [ReplyMessage(s, base, data)]
  }

  /** With both queues empty the device can always emit the reply the host waits for. */
  lemma EmitAwaitedReply<K(!new)>(s: System<K>, base: u8, data: seq<u8>) returns (step: Step, t: System<K>)
    requires IsDataBase(base)
    requires Inv(s) && !s.phase.Idle? && s.host.pending.None? && s.toHost == [] && s.toDevice == []
    ensures Enabled(s, step) && t == Apply(s, step) && Inv(t) && t.requests == s.requests
    ensures t.phase == s.phase && t.host == s.host && t.toHost != [] && Replied(s, base, data, t)
    ensures t.toHost[0].exchange == Taken(t) && !IsAck(t.toHost[0].frame.ctrl)
  {
    hide Inv;
    AwaitedReplyFacts(s);
    var r := |s.device.accepted|;
    step := if |s.device.replies| < r then DeviceReply(base, data) else DeviceResend;
    t := Apply(s, step);
    StepKeepsInv(s, step);
    BitsReadBack(t.device.replies[r - 1].base, t.device.sendSeq);
  }

  /** Reading the awaited reply ends a receive, and leaves a send with the reply stashed. */
  lemma AwaitedRead<K(!new)>(s: System<K>)
    requires Inv(s) && !s.phase.Idle? && s.host.pending.None? && s.toHost != []
    requires s.toHost[0].exchange == Taken(s) && !IsAck(s.toHost[0].frame.ctrl)
    ensures !s.phase.Failed? && HostReads(s).requests == s.requests
    ensures s.phase.Sending? ==> HostReads(s).phase.Receiving? && HostReads(s).host.pending.Some?
    ensures s.phase.Receiving? ==> !HostReads(s).phase.Receiving? && !HostReads(s).phase.Sending?
  {
    var k: nat :| InvAt(s, k);
    PacketBits(s.toHost[0], Taken(s), |s.device.accepted|, s.device.replies, s.keyResponse);
    if s.phase.Sending? { SendReadShape(s); } else { RecvReadShape(s); }
  }

  lemma IdleIsSettled<K(!new)>(t: System<K>, s: System<K>)
    requires Inv(t) && !t.phase.Sending? && !t.phase.Receiving? && t.requests == s.requests
    ensures Settled(t, s)
  {
  }

  /** The stashed reply is there to be taken. */
  lemma TakeStash<K(!new)>(s: System<K>) returns (t: System<K>)
    requires Inv(s) && !s.phase.Idle? && s.host.pending.Some?
    ensures Runs(s, [HostTake], t) && Inv(t) && Settled(t, s) && SameDevice(s, t)
  {
    NeverFailed(s);
    t := Apply(s, HostTake);
    StepKeepsInv(s, HostTake);
    OneStep(s, HostTake);
    IdleIsSettled(t, s);
  }

  /** Reading the awaited reply ends the exchange, at once or through the stash. */
  lemma ReadAwaitedReply<K(!new)>(s: System<K>) returns (steps: seq<Step>, t: System<K>)
    requires Inv(s) && !s.phase.Idle? && s.host.pending.None? && s.toHost != []
    requires s.toHost[0].exchange == Taken(s) && !IsAck(s.toHost[0].frame.ctrl)
    ensures Inv(t) && Runs(s, steps, t) && Settled(t, s) && SameDevice(s, t)
  {
    hide Inv, HostReads;
    AwaitedRead(s);
    ReadShortens(s);
    var s1 := Apply(s, HostRead);
    StepKeepsInv(s, HostRead);
    OneStep(s, HostRead);
    if s.phase.Sending? {
      t := TakeStash(s1);
      RunsAppend(s, [HostRead], s1, [HostTake], t);
      steps := [HostRead] + [HostTake];
    } else {
      IdleIsSettled(s1, s);
      steps, t := [HostRead], s1;
    }
  }

  /** From every reachable state, however many packets were lost, the exchange can still complete, with whatever the
      device has to say if it has not replied yet. */
  lemma CanAlwaysFinish<K(!new)>(s: System<K>, base: u8, data: seq<u8>) returns (steps: seq<Step>, t: System<K>)
    requires Reachable(s) && IsDataBase(base)
    ensures Runs(s, steps, t) && Inv(t) && Settled(t, s) && Replied(s, base, data, t)
  {
    ReachableInv(s);
    steps, t := Finish(s, base, data);
  }

  /** With nothing left for the host to read, the device's reply completes the exchange. */
  lemma FinishBehindQueues<K(!new)>(s: System<K>, base: u8, data: seq<u8>) returns (steps: seq<Step>, t: System<K>)
    requires Inv(s) && IsDataBase(base) && !s.phase.Idle? && s.host.pending.None? && s.toHost == []
    ensures Runs(s, steps, t) && Inv(t) && Settled(t, s) && Replied(s, base, data, t)
  {
    hide Inv, Apply, Enabled, AckWaiting;
    var a, s1 := DrainToDevice(s);
    var b, s2 := EmitAwaitedReply(s1, base, data);
    OneStep(s1, b);
    RunsAppend(s, a, s1, [b], s2);
    var c, s3 := ReadAwaitedReply(s2);
    RunsAppend(s, a + [b], s2, c, s3);
    return a + [b] + c, s3;
  }

  lemma Unmoved<K(!new)>(s: System<K>)
    ensures Runs(s, [], s) && SameDevice(s, s)
  {
  }

  lemma RepliedAround<K>(s: System<K>, s1: System<K>, base: u8, data: seq<u8>, t: System<K>)
    requires SameDevice(s, s1)
    ensures Replied(s, base, data, s) && Replied(s, base, data, s1)
    ensures Replied(s1, base, data, t) ==> Replied(s, base, data, t)
    ensures SameDevice(s1, t) ==> Replied(s, base, data, t)
  {
  }

  lemma Finish<K(!new)>(s: System<K>, base: u8, data: seq<u8>) returns (steps: seq<Step>, t: System<K>)
    requires Inv(s) && IsDataBase(base)
    ensures Runs(s, steps, t) && Inv(t) && Settled(t, s) && Replied(s, base, data, t)
  {
    hide Inv, Runs, Apply, Enabled, Replied, SameDevice;
    if s.phase.Idle? {
      IdleIsSettled(s, s);
      Unmoved(s);
      RepliedAround(s, s, base, data, s);
      return [], s;
    }
    var a, s1 := DrainToHost(s);
    if s1.phase.Idle? {
      IdleIsSettled(s1, s);
      RepliedAround(s, s1, base, data, s1);
      return a, s1;
    }
    var b;
    if s1.host.pending.Some? {
      t := TakeStash(s1);
      b := [HostTake];
    } else {
      b, t := FinishBehindQueues(s1, base, data);
    }
    RepliedAround(s, s1, base, data, t);
    RunsAppend(s, a, s1, b, t);
    steps := a + b;
  }
}
