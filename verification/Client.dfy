/** The client's pinned connection: which wallet every operation really runs on. */
module Client {
  import opened Results
  import opened Words
  import Bip32

  datatype PassphraseSpec = Standard | OnDevice | Host(passphrase: string)

  /** The passphrase sent and whether the device asks for one. */
  type Key = (Option<string>, bool)

  function KeyOf(spec: PassphraseSpec): Key {
    match spec
    case Standard => (None, false)
    case OnDevice => (None, true)
    case Host(passphrase) => (Some(passphrase), false)
  }

  // ---- The device's side ----

  /** What the device has seen. A channel is seeded when it answers ThpCreateNewSession with Success; `typed` is the
      passphrase entered on its screen, if it asked. */
  datatype Event =
    | Seeded(channel: nat, key: Key, typed: string)
    | SeedRefused(channel: nat, key: Key)
    | FeaturesRead(channel: nat, session: u8)
    | SeedMessage(channel: nat, session: u8, spec: PassphraseSpec)

  const MANAGEMENT_SESSION_ID: u8 := 0
  const SEEDED_SESSION_ID: u8 := 1

  function LastSeeded(log: seq<Event>, channel: nat): Option<(Key, string)> {
    if log == [] then None
    else
      var e := log[|log| - 1];
      if e.Seeded? && e.channel == channel then Some((e.key, e.typed)) else LastSeeded(log[..|log| - 1], channel)
  }

  /** The passphrase of the wallet that a key opens. */
  function Wallet(key: Key, typed: string): string {
    if key.1 then typed else if key.0.Some? then key.0.value else ""
  }

  function ChannelWallet(log: seq<Event>, channel: nat): Option<string> {
    match LastSeeded(log, channel)
    case None => None
    case Some(s) => Some(Wallet(s.0, s.1))
  }

  /** A device: what it replies from a wallet to the last of some messages, given what the user and chance do. */
  type Device<-M, +R> = (string, nat, seq<M>) -> R

  /** The reply to the last of an operation's messages: from the wallet of a seeded channel, on its seeded session; none
      elsewhere. */
  function DeviceReply<M, R>(device: Device<M, R>, log: seq<Event>, c: Conn, chance: nat, messages: seq<M>): Option<R> {
    var w := ChannelWallet(log, c.channel);
    if c.activeSession == SEEDED_SESSION_ID && w.Some? then Some(device(w.value, chance, messages)) else None
  }

  /** What chance decides during one operation: whether a channel opens (allocation, handshake, credential), whether
      seeding is granted, what is typed on the device, how many replies arrive before one is lost, what the user and the
      device do otherwise, and whether the device reports an identity. */
  datatype Luck = Luck(opens: bool, seeds: bool, typed: string, messages: nat, chance: nat, deviceId: Option<string>)

  // ---- The host's side ----

  datatype Conn = Conn(channel: nat, activeSession: u8, seededWith: Option<Key>)

  datatype State = State(pinned: Option<Conn>, log: seq<Event>, nextChannel: nat)

  /** What an operation does next. */
  datatype Move<+M, +A> = Send(message: M) | Done(result: Result<A>)

  /** A seed-deriving operation: its next move, from its path and the replies so far. */
  type Script<+M, -R, +A> = (seq<u32>, seq<R>) -> Move<M, A>

  datatype Op<!M, !R, !A> =
    | Identify(keyLength: nat)
    | Derive(keyLength: nat, spec: PassphraseSpec, custom: Option<string>, standard: seq<u32>, script: Script<M, R, A>)

  datatype Output<A> = Identity(id: string) | Answer(answer: A)

  function ResolvePath(custom: Option<string>, standard: seq<u32>): Result<seq<u32>> {
    if custom.Some? then Bip32.Path(custom.value) else Ok(standard)
  }

  /** The pinned connection serves a wallet when it was seeded with exactly its key. */
  predicate Serves(pinned: Option<Conn>, key: Key) { pinned.Some? && pinned.value.seededWith == Some(key) }

  function OpenSeeded(s: State, keyLength: nat, key: Key, luck: Luck): (State, Result<Conn>) {
    if keyLength != 32 then (s, Err)
    else if !luck.opens then (s.(nextChannel := s.nextChannel + 1), Err)
    else
      var ch := s.nextChannel;
      if luck.seeds then
        var c := Conn(ch, SEEDED_SESSION_ID, Some(key));
        (State(Some(c), s.log + [Seeded(ch, key, luck.typed)], ch + 1), Ok(c))
      else (State(s.pinned, s.log + [SeedRefused(ch, key)], ch + 1), Err)
  }

  function EnsureConn(s: State, keyLength: nat, spec: PassphraseSpec, luck: Luck): (State, Result<Conn>) {
    if Serves(s.pinned, KeyOf(spec)) then (s, Ok(s.pinned.value))
    else OpenSeeded(s.(pinned := None), keyLength, KeyOf(spec), luck)
  }

  function Repeated(e: Event, n: nat): seq<Event> { seq(n, i => e) }

  /** How many messages an operation sends, and how it ends, with `left` replies still to arrive. */
  function Play<M, R, A>(device: Device<M, R>, script: Script<M, R, A>, path: seq<u32>, wallet: Option<string>,
                         chance: nat, messages: seq<M>, replies: seq<R>, left: nat): (nat, Result<A>)
    decreases left
  {
    match script(path, replies)
    case Done(result) => (0, result)
    case Send(message) =>
      var now := messages + [message];
      if left == 0 || wallet.None? then (1, Err)
      else
        var reply := device(wallet.value, chance, now);
        var (n, result) := Play(device, script, path, wallet, chance, now, replies + [reply], left - 1);
        (n + 1, result)
  }

  /** One move further. */
  lemma PlayMoves<M, R, A>(device: Device<M, R>, script: Script<M, R, A>, path: seq<u32>, wallet: Option<string>,
                           chance: nat, messages: seq<M>, replies: seq<R>, left: nat)
    ensures var move := script(path, replies);
      var all := Play(device, script, path, wallet, chance, messages, replies, left);
      if move.Done? then all == (0, move.result)
      else if left == 0 || wallet.None? then all == (1, Err)
      else
        var now := messages + [move.message];
        var reply := device(wallet.value, chance, now);
        var rest := Play(device, script, path, wallet, chance, now, replies + [reply], left - 1);
        all == (rest.0 + 1, rest.1)
  {
  }

  lemma NoMessages(log: seq<Event>, e: Event)
    ensures log + Repeated(e, 0) == log
  {
  }

  lemma OneMoreMessage(log: seq<Event>, e: Event, n: nat)
    ensures (log + Repeated(e, n)) + [e] == log + Repeated(e, n + 1)
  {
  }

  /** An operation's messages on a connection: the first one selects the seeded session. */
  function Exchange<M, R, A>(device: Device<M, R>, s: State, c: Conn, op: Op<M, R, A>, path: seq<u32>, luck: Luck)
    : (State, Result<A>)
    requires op.Derive?
  {
    var wallet := ChannelWallet(s.log, c.channel);
    var (n, result) := Play(device, op.script, path, wallet, luck.chance, [], [], luck.messages);
    var c1 := if n > 0 then c.(activeSession := SEEDED_SESSION_ID) else c;
    (State(Some(c1), s.log + Repeated(SeedMessage(c.channel, SEEDED_SESSION_ID, op.spec), n), s.nextChannel), result)
  }

  function RunIdentify<A>(s: State, keyLength: nat, luck: Luck): (State, Result<Output<A>>) {
    var (s1, c) := EnsureConn(s, keyLength, Standard, luck);
    if c.Err? then (s1.(pinned := None), Err)
    else
      var c1 := c.value.(activeSession := MANAGEMENT_SESSION_ID);
      var s2 := State(Some(c1), s1.log + [FeaturesRead(c1.channel, c1.activeSession)], s1.nextChannel);
      if luck.messages == 0 then (s2.(pinned := None), Err)
      else if luck.deviceId.None? then (s2, Err)
      else (s2, Ok(Identity(luck.deviceId.value)))
  }

  function RunDerive<M, R, A>(device: Device<M, R>, s: State, op: Op<M, R, A>, luck: Luck): (State, Result<Output<A>>)
    requires op.Derive?
  {
    var path := ResolvePath(op.custom, op.standard);
    if path.Err? then (s, Err)
    else
      var (s1, c) := EnsureConn(s, op.keyLength, op.spec, luck);
      if c.Err? then (s1.(pinned := None), Err)
      else
        var (s2, result) := Exchange(device, s1, c.value, op, path.value, luck);
        if result.Err? then (s2.(pinned := None), Err) else (s2, Ok(Answer(result.value)))
  }

  function Run<M, R, A>(device: Device<M, R>, s: State, op: Op<M, R, A>, luck: Luck): (State, Result<Output<A>>) {
    if op.Identify? then RunIdentify(s, op.keyLength, luck) else RunDerive(device, s, op, luck)
  }

  function Fresh(): State { State(None, [], 0) }

  function RunAll<M, R, A>(device: Device<M, R>, s: State, steps: seq<(Op<M, R, A>, Luck)>): State {
    if steps == [] then s
    else
      var n := |steps| - 1;
      Run(device, RunAll(device, s, steps[..n]), steps[n].0, steps[n].1).0
  }

  class TrezorClient<M, R, A> {
    const device: Device<M, R>
    var pinned: Option<Conn>
    /** The device's side of the transport. */
    var log: seq<Event>
    var nextChannel: nat

    ghost function Abstract(): State
      reads this
    {
      State(pinned, log, nextChannel)
    }

    constructor (device: Device<M, R>)
      ensures Abstract() == Fresh() && this.device == device
    {
      this.device := device;
      pinned, log, nextChannel := None, [], 0;
    }

    method Ensure(keyLength: nat, passphrase: PassphraseSpec, luck: Luck) returns (r: Result<Conn>)
      modifies this
      ensures (Abstract(), r) == EnsureConn(old(Abstract()), keyLength, passphrase, luck)
    {
      var key := match passphrase {
        case Standard => (None, false)
        case OnDevice => (None, true)
        case Host(p) => (Some(p), false)
      };
      var walletChanged := pinned.Some? && pinned.value.seededWith != Some(key);
      if walletChanged { pinned := None; }
      if pinned.None? {
        if keyLength != 32 { return Err; }
        var ch := nextChannel;
        nextChannel := nextChannel + 1;
        if !luck.opens { return Err; }
        if !luck.seeds {
          log := log + [SeedRefused(ch, key)];
          return Err;
        }
        log := log + [Seeded(ch, key, luck.typed)];
        pinned := Some(Conn(ch, SEEDED_SESSION_ID, Some(key)));
      }
      r := Ok(pinned.value);
    }

    method IdentifyPaired(keyLength: nat, luck: Luck) returns (r: Result<Output<A>>)
      modifies this
      ensures (Abstract(), r) == RunIdentify(old(Abstract()), keyLength, luck)
    {
      var ensured := Ensure(keyLength, Standard, luck);
      if ensured.Err? {
        pinned := None;
        return Err;
      }
      var conn := ensured.value.(activeSession := MANAGEMENT_SESSION_ID);
      pinned := Some(conn);
      log := log + [FeaturesRead(conn.channel, conn.activeSession)];
      if luck.messages > 0 {
        if luck.deviceId.None? { return Err; }
        r := Ok(Identity(luck.deviceId.value));
      } else {
        pinned := None;
        r := Err;
      }
    }

    /** Every seed-deriving operation, with its own script. */
    method DeriveOperation(op: Op<M, R, A>, luck: Luck) returns (r: Result<Output<A>>)
      requires op.Derive?
      modifies this
      ensures (Abstract(), r) == RunDerive(device, old(Abstract()), op, luck)
    {
      var path := ResolvePath(op.custom, op.standard);
      if path.Err? { return Err; }
      var ensured := Ensure(op.keyLength, op.spec, luck);
      if ensured.Err? {
        pinned := None;
        return Err;
      }
      var result := Converse(ensured.value, op, path.value, luck);
      if result.Err? {
        pinned := None;
        return Err;
      }
      r := Ok(Answer(result.value));
    }

    /** One message on the seeded session, and its reply if it arrives. */
    method TransceiveSeeded(conn: Conn, spec: PassphraseSpec, chance: nat, messages: seq<M>, arrives: bool)
      returns (conn1: Conn, reply: Option<R>)
      modifies this`pinned, this`log
      ensures conn1 == conn.(activeSession := SEEDED_SESSION_ID) && pinned == Some(conn1)
      ensures log == old(log) + [SeedMessage(conn.channel, SEEDED_SESSION_ID, spec)]
      ensures ChannelWallet(log, conn.channel) == ChannelWallet(old(log), conn.channel)
      ensures var wallet := ChannelWallet(old(log), conn.channel);
        reply == if arrives && wallet.Some? then Some(device(wallet.value, chance, messages)) else None
    {
      hide ChannelWallet;
      conn1 := conn.(activeSession := SEEDED_SESSION_ID);
      pinned := Some(conn1);
      MessageKeepsWallet(log, SeedMessage(conn.channel, SEEDED_SESSION_ID, spec), conn.channel);
      log := log + [SeedMessage(conn1.channel, conn1.activeSession, spec)];
      reply := if arrives then DeviceReply(device, log, conn1, chance, messages) else None;
    }

    /** Messages and replies, until the script is done or a reply is missing. */
    method Converse(start: Conn, op: Op<M, R, A>, path: seq<u32>, luck: Luck) returns (result: Result<A>)
      requires op.Derive?
      modifies this`pinned, this`log
      ensures (Abstract(), result) == Exchange(device, old(Abstract()), start, op, path, luck)
    {
      hide Play, Repeated, ChannelWallet;
      ghost var before, wallet := log, ChannelWallet(log, start.channel);
      ghost var e := SeedMessage(start.channel, SEEDED_SESSION_ID, op.spec);
      ghost var all := Play(device, op.script, path, wallet, luck.chance, [], [], luck.messages);
      var conn, messages: seq<M>, replies: seq<R> := start, [], [];
      pinned := Some(conn);
      NoMessages(before, e);
      while true
        invariant |messages| == |replies| <= luck.messages && pinned == Some(conn)
        invariant conn == if messages == [] then start else start.(activeSession := SEEDED_SESSION_ID)
        invariant log == before + Repeated(e, |messages|) && ChannelWallet(log, start.channel) == wallet
        invariant
          var rest := Play(device, op.script, path, wallet, luck.chance, messages, replies, luck.messages - |replies|);
          all == (|messages| + rest.0, rest.1)
        decreases luck.messages - |replies|
      {
        PlayMoves(device, op.script, path, wallet, luck.chance, messages, replies, luck.messages - |replies|);
        OneMoreMessage(before, e, |messages|);
        var move := op.script(path, replies);
        if move.Done? { return move.result; }
        messages := messages + [move.message];
        var reply;
        conn, reply := TransceiveSeeded(conn, op.spec, luck.chance, messages, |replies| < luck.messages);
        if reply.None? { return Err; }
        replies := replies + [reply.value];
      }
    }
  }

  // ---- What holds in every run ----

  lemma KeyIsInjective(a: PassphraseSpec, b: PassphraseSpec)
    ensures KeyOf(a) == KeyOf(b) <==> a == b
  {
  }

  /** Channels are opened anew, messages of seed-deriving operations go to session 1 of a channel whose last successful
      seeding used exactly the key of the wallet asked for, and identification to session 0 of one for the standard
      wallet. */
  ghost predicate GoodEvent(log: seq<Event>, e: Event) {
    match e
    case Seeded(channel, _, _) => forall i :: 0 <= i < |log| ==> log[i].channel != channel
    case SeedRefused(channel, _) => forall i :: 0 <= i < |log| ==> log[i].channel != channel
    case FeaturesRead(channel, session) =>
      session == 0 && LastSeeded(log, channel).Some? && LastSeeded(log, channel).value.0 == (None, false)
    case SeedMessage(channel, session, spec) =>
      session == 1 && LastSeeded(log, channel).Some? && LastSeeded(log, channel).value.0 == KeyOf(spec)
  }

  ghost predicate GoodLog(log: seq<Event>) { forall i :: 0 <= i < |log| ==> GoodEvent(log[..i], log[i]) }

  /** The slot holds a seeded connection, and remembers what it was seeded with. */
  ghost predicate SlotSeeded(s: State) {
    s.pinned.Some? ==>
      (s.pinned.value.seededWith.Some? && s.pinned.value.channel < s.nextChannel
       && LastSeeded(s.log, s.pinned.value.channel).Some?
       && LastSeeded(s.log, s.pinned.value.channel).value.0 == s.pinned.value.seededWith.value)
  }

  ghost predicate Opened(s: State) { forall i :: 0 <= i < |s.log| ==> s.log[i].channel < s.nextChannel }

  ghost predicate Inv(s: State) { GoodLog(s.log) && SlotSeeded(s) && Opened(s) }

  lemma GoodLogSnoc(log: seq<Event>, e: Event)
    requires GoodLog(log) && GoodEvent(log, e)
    ensures GoodLog(log + [e])
  {
    hide GoodEvent;
    var all := log + [e];
    forall i | 0 <= i < |all| ensures GoodEvent(all[..i], all[i]) {
      assert all[..i] == log[..i];
      assert i == |log| ==> log[..i] == log;
    }
  }

  lemma LastSeededSnoc(log: seq<Event>, e: Event, channel: nat)
    ensures LastSeeded(log + [e], channel)
      == if e.Seeded? && e.channel == channel then Some((e.key, e.typed)) else LastSeeded(log, channel)
  {
    assert (log + [e])[..|log|] == log;
  }

  lemma MessageKeepsWallet(log: seq<Event>, e: Event, channel: nat)
    requires e.SeedMessage?
    ensures ChannelWallet(log + [e], channel) == ChannelWallet(log, channel)
  {
    LastSeededSnoc(log, e, channel);
  }

  lemma EnsureKeepsInv(s: State, keyLength: nat, spec: PassphraseSpec, luck: Luck)
    requires Inv(s)
    ensures var (s1, c) := EnsureConn(s, keyLength, spec, luck);
      Inv(s1) && (c.Ok? ==> s1.pinned == Some(c.value) && c.value.seededWith == Some(KeyOf(spec)))
  {
    var key, ch := KeyOf(spec), s.nextChannel;
    GoodLogSnoc(s.log, Seeded(ch, key, luck.typed));
    GoodLogSnoc(s.log, SeedRefused(ch, key));
    LastSeededSnoc(s.log, Seeded(ch, key, luck.typed), ch);
  }

  lemma {:induction false} MessagesKeepInv(s: State, c: Conn, spec: PassphraseSpec, n: nat)
    requires Inv(s) && s.pinned.Some? && s.pinned.value.channel == c.channel
    requires s.pinned.value.seededWith == c.seededWith == Some(KeyOf(spec))
    ensures var log := s.log + Repeated(SeedMessage(c.channel, SEEDED_SESSION_ID, spec), n);
      GoodLog(log) && LastSeeded(log, c.channel) == LastSeeded(s.log, c.channel)
    decreases n
  {
    var e := SeedMessage(c.channel, SEEDED_SESSION_ID, spec);
    if n == 0 {
      NoMessages(s.log, e);
    } else {
      MessagesKeepInv(s, c, spec, n - 1);
      var log := s.log + Repeated(e, n - 1);
      OneMoreMessage(s.log, e, n - 1);
      GoodLogSnoc(log, e);
      LastSeededSnoc(log, e, c.channel);
    }
  }

  lemma IdentifyKeepsInv<A>(s: State, keyLength: nat, luck: Luck)
    requires Inv(s)
    ensures Inv(RunIdentify<A>(s, keyLength, luck).0)
  {
    EnsureKeepsInv(s, keyLength, Standard, luck);
    var (s1, c) := EnsureConn(s, keyLength, Standard, luck);
    if c.Ok? {
      var e := FeaturesRead(c.value.channel, MANAGEMENT_SESSION_ID);
      GoodLogSnoc(s1.log, e);
      LastSeededSnoc(s1.log, e, c.value.channel);
    }
  }

  lemma DeriveKeepsInv<M, R, A>(device: Device<M, R>, s: State, op: Op<M, R, A>, luck: Luck)
    requires Inv(s) && op.Derive?
    ensures Inv(RunDerive(device, s, op, luck).0)
  {
    EnsureKeepsInv(s, op.keyLength, op.spec, luck);
    var path := ResolvePath(op.custom, op.standard);
    var (s1, c) := EnsureConn(s, op.keyLength, op.spec, luck);
    if path.Ok? && c.Ok? {
      var wallet := ChannelWallet(s1.log, c.value.channel);
      MessagesKeepInv(s1, c.value, op.spec,
                      Play(device, op.script, path.value, wallet, luck.chance, [], [], luck.messages).0);
    }
  }

  /** Over every sequence of operations, however each of them fares. */
  lemma {:induction false} EveryRun<M, R, A>(device: Device<M, R>, steps: seq<(Op<M, R, A>, Luck)>)
    ensures Inv(RunAll(device, Fresh(), steps))
    decreases |steps|
  {
    if steps == [] {
    } else {
      var n := |steps| - 1;
      EveryRun(device, steps[..n]);
      var s := RunAll(device, Fresh(), steps[..n]);
      if steps[n].0.Identify? {
        IdentifyKeepsInv<A>(s, steps[n].0.keyLength, steps[n].1);
      } else {
        DeriveKeepsInv(device, s, steps[n].0, steps[n].1);
      }
    }
  }

  // ---- Results ----

  /** The passphrase typed when the channel was seeded that the operation runs on. */
  function TypedFor<M, R, A>(s: State, op: Op<M, R, A>, luck: Luck): string {
    if op.Derive? && Serves(s.pinned, KeyOf(op.spec)) && LastSeeded(s.log, s.pinned.value.channel).Some?
    then LastSeeded(s.log, s.pinned.value.channel).value.1
    else luck.typed
  }

  /** How an operation ends on the wallet it asks for, with this passphrase typed if the device asks for one. */
  function Ending<M, R, A>(device: Device<M, R>, op: Op<M, R, A>, typed: string, luck: Luck): Result<Output<A>>
    requires op.Derive?
  {
    var path := ResolvePath(op.custom, op.standard);
    if path.Err? then Err
    else
      var wallet := Some(Wallet(KeyOf(op.spec), typed));
      match Play(device, op.script, path.value, wallet, luck.chance, [], [], luck.messages).1
      case Err => Err
      case Ok(answer) => Ok(Answer(answer))
  }

  predicate CanOpen(keyLength: nat, luck: Luck) { keyLength == 32 && luck.opens && luck.seeds }

  /** An operation ends as its script does on the wallet asked for; where the device asks for the passphrase, on the
      one typed when the pinned channel was seeded. It fails outright when no channel serves it. */
  lemma AnswerIsFromTheWallet<M, R, A>(device: Device<M, R>, s: State, op: Op<M, R, A>, luck: Luck)
    requires Inv(s) && op.Derive?
    ensures Run(device, s, op, luck).1
      == if Serves(s.pinned, KeyOf(op.spec)) || CanOpen(op.keyLength, luck)
         then Ending(device, op, TypedFor(s, op, luck), luck) else Err
  {
    EnsureKeepsInv(s, op.keyLength, op.spec, luck);
    LastSeededSnoc(s.log, Seeded(s.nextChannel, KeyOf(op.spec), luck.typed), s.nextChannel);
  }

  // ---- The path and the conversation of an operation ----

  /** A path written by the caller replaces the standard one, and a text that is no path ends the operation at once. */
  lemma CustomPathIsUsed<M, R, A>(device: Device<M, R>, s: State, op: Op<M, R, A>, luck: Luck, text: string,
                                  p: seq<u32>)
    requires op.Derive? && op.custom == Some(text)
    ensures Bip32.Path(text) == Ok(p) ==>
      Run(device, s, op, luck) == Run(device, s, op.(custom := None, standard := p), luck)
    ensures Bip32.Path(text).Err? ==> Run(device, s, op, luck) == (s, Err)
  {
  }

  /** Messages as the script makes them of the replies before, and replies as the device makes them of the messages. */
  ghost predicate IsTalk<M(!new), R(!new), A>(device: Device<M, R>, script: Script<M, R, A>, path: seq<u32>,
                                               wallet: string, chance: nat, messages: seq<M>, replies: seq<R>) {
    |messages| == |replies|
    && forall k :: 0 <= k < |messages| ==>
         script(path, replies[..k]) == Send(messages[k]) && replies[k] == device(wallet, chance, messages[..k + 1])
  }

  lemma TalkSnoc<M(!new), R(!new), A>(device: Device<M, R>, script: Script<M, R, A>, path: seq<u32>, wallet: string,
                                      chance: nat, messages: seq<M>, replies: seq<R>, message: M, reply: R)
    requires IsTalk(device, script, path, wallet, chance, messages, replies)
    requires script(path, replies) == Send(message) && reply == device(wallet, chance, messages + [message])
    ensures IsTalk(device, script, path, wallet, chance, messages + [message], replies + [reply])
  {
    var ms, rs := messages + [message], replies + [reply];
    forall k | 0 <= k < |ms|
      ensures script(path, rs[..k]) == Send(ms[k]) && rs[k] == device(wallet, chance, ms[..k + 1])
    {
      assert rs[..k] == replies[..k];
      if k < |messages| {
        assert ms[..k + 1] == messages[..k + 1];
      } else {
        assert replies[..k] == replies && ms[..k + 1] == ms;
      }
    }
  }

  lemma {:induction false} PlayedIsTalk<M(!new), R(!new), A>(device: Device<M, R>, script: Script<M, R, A>,
      path: seq<u32>, wallet: string, chance: nat, messages: seq<M>, replies: seq<R>, left: nat)
    returns (ms: seq<M>, rs: seq<R>)
    requires IsTalk(device, script, path, wallet, chance, messages, replies)
    requires Play(device, script, path, Some(wallet), chance, messages, replies, left).1.Ok?
    ensures IsTalk(device, script, path, wallet, chance, ms, rs) && |rs| <= |replies| + left
    ensures var played := Play(device, script, path, Some(wallet), chance, messages, replies, left);
      script(path, rs) == Done(played.1) && |ms| == |messages| + played.0
    decreases left
  {
    hide IsTalk;
    var move := script(path, replies);
    if move.Done? {
      TalkLengths(device, script, path, wallet, chance, messages, replies);
      ms, rs := messages, replies;
    } else {
      var now := messages + [move.message];
      var reply := device(wallet, chance, now);
      TalkSnoc(device, script, path, wallet, chance, messages, replies, move.message, reply);
      ms, rs := PlayedIsTalk(device, script, path, wallet, chance, now, replies + [reply], left - 1);
    }
  }

  lemma TalkLengths<M(!new), R(!new), A>(device: Device<M, R>, script: Script<M, R, A>, path: seq<u32>, wallet: string,
                                         chance: nat, messages: seq<M>, replies: seq<R>)
    requires IsTalk(device, script, path, wallet, chance, messages, replies)
    ensures |messages| == |replies|
  {
  }

  lemma {:induction false} TalkIsPlayed<M(!new), R(!new), A>(device: Device<M, R>, script: Script<M, R, A>,
      path: seq<u32>, wallet: string, chance: nat, ms: seq<M>, rs: seq<R>, k: nat, left: nat)
    requires IsTalk(device, script, path, wallet, chance, ms, rs) && k <= |rs| <= k + left
    requires script(path, rs).Done?
    ensures Play(device, script, path, Some(wallet), chance, ms[..k], rs[..k], left).1 == script(path, rs).result
    decreases |rs| - k
  {
    if k == |rs| {
      assert rs[..k] == rs;
    } else {
      assert script(path, rs[..k]) == Send(ms[k]) && rs[k] == device(wallet, chance, ms[..k + 1]);
      assert ms[..k] + [ms[k]] == ms[..k + 1] && rs[..k] + [rs[k]] == rs[..k + 1];
      TalkIsPlayed(device, script, path, wallet, chance, ms, rs, k + 1, left - 1);
    }
  }

  /** A script ends well exactly when some talk between it and the device, short enough, leads it there. */
  lemma PlayIff<M(!new), R(!new), A>(device: Device<M, R>, script: Script<M, R, A>, path: seq<u32>, wallet: string,
                                     chance: nat, left: nat, answer: A)
    ensures Play(device, script, path, Some(wallet), chance, [], [], left).1 == Ok(answer)
      <==> exists ms, rs ::
             IsTalk(device, script, path, wallet, chance, ms, rs) && |rs| <= left
             && script(path, rs) == Done(Ok(answer))
  {
    if Play(device, script, path, Some(wallet), chance, [], [], left).1 == Ok(answer) {
      var ms, rs := PlayedIsTalk(device, script, path, wallet, chance, [], [], left);
    }
    forall ms, rs | IsTalk(device, script, path, wallet, chance, ms, rs) && |rs| <= left
                    && script(path, rs) == Done(Ok(answer))
      ensures Play(device, script, path, Some(wallet), chance, [], [], left).1 == Ok(answer)
    {
      assert ms[..0] == [] && rs[..0] == [];
      TalkIsPlayed(device, script, path, wallet, chance, ms, rs, 0, left);
    }
  }

  /** The passphrase of the wallet that an operation runs on. */
  function PassphraseFor<M, R, A>(s: State, op: Op<M, R, A>, luck: Luck): string
    requires op.Derive?
  {
    match op.spec
    case Standard => ""
    case Host(passphrase) => passphrase
    case OnDevice => TypedFor(s, op, luck)
  }

  /** An operation on the standard path answers exactly when its wallet is served or can be opened, and its script can
      be talked to the answer from that wallet, on that path, within the replies that arrive. */
  lemma OperationIff<M(!new), R(!new), A>(device: Device<M, R>, s: State, op: Op<M, R, A>, luck: Luck, answer: A)
    requires Inv(s) && op.Derive? && op.custom.None?
    ensures Run(device, s, op, luck).1 == Ok(Answer(answer))
      <==> (Serves(s.pinned, KeyOf(op.spec)) || CanOpen(op.keyLength, luck))
           && exists ms, rs ::
                IsTalk(device, op.script, op.standard, PassphraseFor(s, op, luck), luck.chance, ms, rs)
                && |rs| <= luck.messages && op.script(op.standard, rs) == Done(Ok(answer))
  {
    AnswerIsFromTheWallet(device, s, op, luck);
    PlayIff(device, op.script, op.standard, PassphraseFor(s, op, luck), luck.chance, luck.messages, answer);
  }

  /** Behind a success, the device's log ends with the messages of that talk, on session 1. */
  lemma TalkIsLogged<M(!new), R(!new), A>(device: Device<M, R>, s: State, op: Op<M, R, A>, luck: Luck)
    returns (ms: seq<M>, rs: seq<R>)
    requires Inv(s) && op.Derive? && op.custom.None? && Run(device, s, op, luck).1.Ok?
    ensures IsTalk(device, op.script, op.standard, PassphraseFor(s, op, luck), luck.chance, ms, rs)
    ensures op.script(op.standard, rs).Done? && op.script(op.standard, rs).result.Ok?
    ensures Run(device, s, op, luck).1 == Ok(Answer(op.script(op.standard, rs).result.value))
    ensures var s1 := Run(device, s, op, luck).0;
      s1.pinned.Some? && |ms| <= |s1.log|
      && forall i :: |s1.log| - |ms| <= i < |s1.log| ==> s1.log[i] == SeedMessage(s1.pinned.value.channel, 1, op.spec)
  {
    AnswerIsFromTheWallet(device, s, op, luck);
    var passphrase := PassphraseFor(s, op, luck);
    ms, rs := PlayedIsTalk(device, op.script, op.standard, passphrase, luck.chance, [], [], luck.messages);
    EnsureKeepsInv(s, op.keyLength, op.spec, luck);
    LastSeededSnoc(s.log, Seeded(s.nextChannel, KeyOf(op.spec), luck.typed), s.nextChannel);
  }

  /** An identification returns what the device reports over the standard wallet's connection, on session 0. */
  lemma IdentityIff<M, R, A>(device: Device<M, R>, s: State, op: Op<M, R, A>, luck: Luck, id: string)
    requires op.Identify?
    ensures Run(device, s, op, luck).1 == Ok(Identity(id))
      <==> (Serves(s.pinned, (None, false)) || CanOpen(op.keyLength, luck))
           && luck.messages > 0 && luck.deviceId == Some(id)
    ensures Run(device, s, op, luck).1.Ok? ==>
      var s1 := Run(device, s, op, luck).0;
      s1.pinned.Some? && s1.log != [] && s1.log[|s1.log| - 1] == FeaturesRead(s1.pinned.value.channel, 0)
  {
  }

  /** What an operation leaves in the slot. A malformed path leaves everything as it was. Otherwise the slot holds a
      connection for the wallet behind a success, and behind an identification in which the device left its identity
      out; behind any other failure it is empty. */
  lemma SlotAfter<M, R, A>(device: Device<M, R>, s: State, op: Op<M, R, A>, luck: Luck)
    requires Inv(s)
    ensures var (s1, r) := Run(device, s, op, luck);
      var spec := if op.Identify? then Standard else op.spec;
      if op.Derive? && ResolvePath(op.custom, op.standard).Err? then s1 == s && r.Err?
      else
        (s1.pinned.Some? <==>
           r.Ok? || (op.Identify? && (Serves(s.pinned, KeyOf(spec)) || CanOpen(op.keyLength, luck))
                     && luck.messages > 0 && luck.deviceId.None?))
        && (s1.pinned.Some? ==> Serves(s1.pinned, KeyOf(spec)))
  {
    EnsureKeepsInv(s, op.keyLength, if op.Identify? then Standard else op.spec, luck);
  }

  /** Replies that an operation does not wait for change nothing. */
  lemma {:induction false} MoreRepliesChangeNothing<M, R, A>(device: Device<M, R>, script: Script<M, R, A>,
      path: seq<u32>, wallet: Option<string>, chance: nat, messages: seq<M>, replies: seq<R>, left: nat, more: nat)
    requires left <= more && Play(device, script, path, wallet, chance, messages, replies, left).1.Ok?
    ensures Play(device, script, path, wallet, chance, messages, replies, more)
      == Play(device, script, path, wallet, chance, messages, replies, left)
    decreases left
  {
    var move := script(path, replies);
    if move.Send? {
      var now := messages + [move.message];
      MoreRepliesChangeNothing(device, script, path, wallet, chance, now,
                               replies + [device(wallet.value, chance, now)], left - 1, more - 1);
    }
  }

  /** Whatever happened before, a successful operation returns what a fresh connection for its wallet returns, with the
      passphrase typed that was typed for the pinned one. */
  lemma PinnedRefinesFresh<M, R, A>(device: Device<M, R>, steps: seq<(Op<M, R, A>, Luck)>, op: Op<M, R, A>,
                                    luck: Luck, ideal: Luck)
    requires op.Derive? && CanOpen(32, ideal) && ideal.chance == luck.chance && ideal.messages >= luck.messages
    requires Run(device, RunAll(device, Fresh(), steps), op, luck).1.Ok?
    requires op.spec.OnDevice? ==> ideal.typed == TypedFor(RunAll(device, Fresh(), steps), op, luck)
    ensures Run(device, RunAll(device, Fresh(), steps), op, luck).1
      == Run(device, Fresh(), op.(keyLength := 32), ideal).1
  {
    var s := RunAll(device, Fresh(), steps);
    EveryRun(device, steps);
    AnswerIsFromTheWallet(device, s, op, luck);
    AnswerIsFromTheWallet(device, Fresh(), op.(keyLength := 32), ideal);
    MoreRepliesChangeNothing(device, op.script, ResolvePath(op.custom, op.standard).value,
                             Some(Wallet(KeyOf(op.spec), TypedFor(s, op, luck))), luck.chance, [], [],
                             luck.messages, ideal.messages);
  }

  /** Whatever goes wrong, pinning shows in two ways only, both while the slot serves the wallet: a fresh connection
      could not be made, because of the key's length or by chance, where the operation succeeds; or the passphrase typed
      now would end it differently. */
  lemma PinningShowsIff<M, R, A>(device: Device<M, R>, steps: seq<(Op<M, R, A>, Luck)>, op: Op<M, R, A>, luck: Luck)
    requires op.Derive?
    ensures var s := RunAll(device, Fresh(), steps);
      var pinned := Ending(device, op, TypedFor(s, op, luck), luck);
      Run(device, s, op, luck).1 != Run(device, Fresh(), op, luck).1
      <==> Serves(s.pinned, KeyOf(op.spec))
           && if CanOpen(op.keyLength, luck) then op.spec.OnDevice? && pinned != Ending(device, op, luck.typed, luck)
              else pinned.Ok?
  {
    EveryRun(device, steps);
    AnswerIsFromTheWallet(device, RunAll(device, Fresh(), steps), op, luck);
    AnswerIsFromTheWallet(device, Fresh(), op, luck);
  }

  /** A passphrase typed on the device is asked for once per pinned channel: behind a successful operation on the
      on-device wallet, another one runs on the passphrase typed for the first, whatever would be typed now. */
  lemma OnDeviceAsksOnce<M, R, A>(device: Device<M, R>, s: State, op: Op<M, R, A>, first: Luck,
                                  next: Op<M, R, A>, second: Luck)
    requires Inv(s) && op.Derive? && next.Derive? && op.spec.OnDevice? && next.spec.OnDevice?
    requires Run(device, s, op, first).1.Ok?
    ensures Run(device, Run(device, s, op, first).0, next, second).1
      == Ending(device, next, TypedFor(s, op, first), second)
  {
    var s1 := Run(device, s, op, first).0;
    EnsureKeepsInv(s, op.keyLength, op.spec, first);
    DeriveKeepsInv(device, s, op, first);
    var path := ResolvePath(op.custom, op.standard).value;
    var (s0, c) := EnsureConn(s, op.keyLength, op.spec, first);
    var wallet := ChannelWallet(s0.log, c.value.channel);
    var n := Play(device, op.script, path, wallet, first.chance, [], [], first.messages).0;
    MessagesKeepInv(s0, c.value, op.spec, n);
    LastSeededSnoc(s.log, Seeded(s.nextChannel, KeyOf(op.spec), first.typed), s.nextChannel);
    assert TypedFor(s1, next, second) == TypedFor(s, op, first);
    AnswerIsFromTheWallet(device, s1, next, second);
  }

  /** The device is asked to open a wallet at most once per operation, with its passphrase and whether it is to be
      typed, and does so exactly when the path is well formed, the slot does not serve the wallet, and a channel opens. */
  lemma SeedsAgainIff<M, R, A>(device: Device<M, R>, s: State, op: Op<M, R, A>, luck: Luck)
    requires op.Derive?
    ensures var s1 := Run(device, s, op, luck).0;
      var key: Key := match op.spec
        case Standard => (None, false)
        case OnDevice => (None, true)
        case Host(passphrase) => (Some(passphrase), false);
      && |s.log| <= |s1.log| && s1.log[..|s.log|] == s.log
      && (forall e :: e in s1.log[|s.log|..] && e.Seeded? ==> e == Seeded(s.nextChannel, key, luck.typed))
      && (Seeded(s.nextChannel, key, luck.typed) in s1.log[|s.log|..]
          <==> ResolvePath(op.custom, op.standard).Ok? && !Serves(s.pinned, key) && CanOpen(op.keyLength, luck))
  {
    hide Play, LastSeeded;
    var path := ResolvePath(op.custom, op.standard);
    var (s1, c) := EnsureConn(s, op.keyLength, op.spec, luck);
    var s2 := Run(device, s, op, luck).0;
    if path.Ok? && c.Ok? {
      var wallet := ChannelWallet(s1.log, c.value.channel);
      var n := Play(device, op.script, path.value, wallet, luck.chance, [], [], luck.messages).0;
      var messages := Repeated(SeedMessage(c.value.channel, SEEDED_SESSION_ID, op.spec), n);
      if Serves(s.pinned, KeyOf(op.spec)) {
        assert s2.log[|s.log|..] == messages;
      } else {
        var e := Seeded(s.nextChannel, KeyOf(op.spec), luck.typed);
        assert s2.log == s.log + ([e] + messages);
        assert s2.log[|s.log|..][0] == e;
      }
    }
  }

  /** One successful operation, and then the same with a key one byte short: answered alike, where a fresh client
      refuses it. */
  lemma ShortKeyPassesOnce<M, R, A>(device: Device<M, R>, op: Op<M, R, A>, luck: Luck)
    requires op.Derive? && op.keyLength == 32 && !op.spec.OnDevice? && Run(device, Fresh(), op, luck).1.Ok?
    ensures var s := RunAll(device, Fresh(), [(op, luck)]);
      var short := op.(keyLength := 31);
      Serves(s.pinned, KeyOf(op.spec)) && Run(device, s, short, luck).1 == Run(device, Fresh(), op, luck).1
      && Run(device, Fresh(), short, luck).1.Err?
  {
    var steps := [(op, luck)];
    assert steps[..0] == [];
    assert RunAll(device, Fresh(), steps[..0]) == Fresh();
    var s := RunAll(device, Fresh(), steps);
    EveryRun(device, steps);
    assert s == Run(device, Fresh(), op, luck).0;
    SlotAfter(device, Fresh(), op, luck);
    AnswerIsFromTheWallet(device, s, op.(keyLength := 31), luck);
    AnswerIsFromTheWallet(device, Fresh(), op, luck);
  }
}
