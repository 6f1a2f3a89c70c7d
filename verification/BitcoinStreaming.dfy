/** What the streamed parts add up to, and what signing leaves unchanged. */
module BitcoinStreaming {
  import opened Results
  import opened Words
  import opened Bitcoin

  // ---- Which signature stays ----

  /** The last signature that the requests carry for an input. */
  function LastSignature(reqs: seq<TxRequest>, idx: u32): Option<seq<u8>> {
    if reqs == [] then None
    else
      var n := |reqs| - 1;
      var c := Carried(reqs[n]);
      if c.Some? && c.value.0 == idx then Some(c.value.1) else LastSignature(reqs[..n], idx)
  }

  function Collected(sigs: map<u32, seq<u8>>, reqs: seq<TxRequest>): map<u32, seq<u8>>
    decreases |reqs|
  {
    if reqs == [] then sigs else Collected(Noted(sigs, reqs[0]), reqs[1..])
  }

  lemma {:induction false} CollectedSnoc(sigs: map<u32, seq<u8>>, reqs: seq<TxRequest>, req: TxRequest)
    ensures Collected(sigs, reqs + [req]) == Noted(Collected(sigs, reqs), req)
    decreases |reqs|
  {
    if reqs == [] {
      assert [req][1..] == [];
    } else {
      assert (reqs + [req])[1..] == reqs[1..] + [req];
      CollectedSnoc(Noted(sigs, reqs[0]), reqs[1..], req);
    }
  }

  /** Collecting forwards keeps, for each input, what looking backwards finds first. */
  lemma {:induction false} CollectedIsLast(reqs: seq<TxRequest>, idx: u32)
    ensures var sigs := Collected(map[], reqs);
      LastSignature(reqs, idx) == if idx in sigs then Some(sigs[idx]) else None
    decreases |reqs|
  {
    if reqs == [] {
    } else {
      var n := |reqs| - 1;
      CollectedIsLast(reqs[..n], idx);
      CollectedSnoc(map[], reqs[..n], reqs[n]);
      assert reqs == reqs[..n] + [reqs[n]];
    }
  }

  /** The first request to finish is reply n, and every reply before it is a request. */
  ghost predicate EndsAt(replies: seq<Reply>, n: nat) {
    n < |replies| && (forall k :: 0 <= k <= n ==> replies[k].Request?)
    && RequestKind(replies[n].req) == TXFINISHED
    && forall k :: 0 <= k < n ==> RequestKind(replies[k].req) != TXFINISHED
  }

  ghost predicate AllAnswered(lib: Library, psbt: Psbt, testnet: bool, replies: seq<Reply>, n: nat)
    requires EndsAt(replies, n)
  {
    forall k :: 0 <= k < n ==> Answer(lib, psbt, testnet, replies[k].req).Ok?
  }

  ghost function Requests(replies: seq<Reply>, n: nat): (reqs: seq<TxRequest>)
    requires EndsAt(replies, n)
  {
    seq(n + 1, k requires 0 <= k <= n => replies[k].req)
  }

  lemma {:induction false} StreamCollects(lib: Library, psbt: Psbt, testnet: bool, replies: seq<Reply>, n: nat,
                                          sigs: map<u32, seq<u8>>)
    requires EndsAt(replies, n)
    ensures Stream(lib, psbt, testnet, replies, sigs).0
      == if AllAnswered(lib, psbt, testnet, replies, n) then Ok(Collected(sigs, Requests(replies, n))) else Err
    decreases n
  {
    var reqs := Requests(replies, n);
    var tail := replies[1..];
    if n == 0 {
      assert reqs[1..] == [];
    } else {
      assert EndsAt(tail, n - 1);
      assert reqs[1..] == Requests(tail, n - 1);
      StreamCollects(lib, psbt, testnet, tail, n - 1, Noted(sigs, replies[0].req));
      assert forall k :: 0 < k < n ==> replies[k] == tail[k - 1];
      assert forall k :: 0 <= k < n - 1 ==> tail[k] == replies[k + 1];
    }
  }

  /** Every last signature parses and belongs to an input with a derivation. */
  ghost predicate LastMergeable(lib: Library, inputs: seq<PsbtInput>, reqs: seq<TxRequest>) {
    forall idx :: LastSignature(reqs, idx).Some? ==> Mergeable(lib, inputs, idx, LastSignature(reqs, idx).value)
  }

  /** An input after signing: its last signature added under its first derivation key, or as it was. */
  function WithLast(lib: Library, psbt: Psbt, reqs: seq<TxRequest>, i: nat): PsbtInput
    requires i < |psbt.inputs|
  {
    var last := if i < 0x1_0000_0000 then LastSignature(reqs, i as u32) else None;
    if last.Some? && psbt.inputs[i].derivations != [] && lib.fromDer(last.value).Some?
    then SignedInput(lib, psbt.inputs[i], last.value) else psbt.inputs[i]
  }

  lemma CollectedMergeable(lib: Library, inputs: seq<PsbtInput>, reqs: seq<TxRequest>)
    ensures AllMergeable(lib, inputs, Collected(map[], reqs)) <==> LastMergeable(lib, inputs, reqs)
  {
    var sigs := Collected(map[], reqs);
    forall idx ensures LastSignature(reqs, idx) == if idx in sigs then Some(sigs[idx]) else None {
      CollectedIsLast(reqs, idx);
    }
  }

  /** Signing succeeds exactly when every request was answered and every last signature can be merged; and then each
      input has its last signature, under its first derivation key, and nothing else has changed. */
  lemma SignatureConservation(lib: Library, psbt: Psbt, testnet: bool, replies: seq<Reply>, n: nat)
    requires EndsAt(replies, n)
    ensures var reqs := Requests(replies, n);
      Signed(lib, psbt, testnet, replies).Ok?
      <==> AllAnswered(lib, psbt, testnet, replies, n) && LastMergeable(lib, psbt.inputs, reqs)
    ensures var reqs, out := Requests(replies, n), Signed(lib, psbt, testnet, replies);
      out.Ok? ==> out.value == psbt.(inputs := out.value.inputs) && |out.value.inputs| == |psbt.inputs|
    ensures var reqs, out := Requests(replies, n), Signed(lib, psbt, testnet, replies);
      out.Ok? ==> forall i :: 0 <= i < |psbt.inputs| ==> out.value.inputs[i] == WithLast(lib, psbt, reqs, i)
  {
    var reqs := Requests(replies, n);
    StreamCollects(lib, psbt, testnet, replies, n, map[]);
    CollectedMergeable(lib, psbt.inputs, reqs);
    forall idx ensures var sigs := Collected(map[], reqs);
      LastSignature(reqs, idx) == if idx in sigs then Some(sigs[idx]) else None
    {
      CollectedIsLast(reqs, idx);
    }
  }

  // ---- Conservation entry by entry ----

  /** The request carries this signature for the input. */
  ghost predicate Gives(req: TxRequest, idx: u32, sig: seq<u8>) {
    req.serialized == Some(Serialized(Some(idx), Some(sig)))
  }

  lemma GivesIsCarried(req: TxRequest, idx: u32)
    ensures forall sig :: Gives(req, idx, sig) <==> Carried(req) == Some((idx, sig))
  {
  }

  /** The request at k carries it, and none behind carries another. */
  ghost predicate LastAt(reqs: seq<TxRequest>, idx: u32, sig: seq<u8>, k: nat) {
    k < |reqs| && Gives(reqs[k], idx, sig) && forall j, other :: k < j < |reqs| ==> !Gives(reqs[j], idx, other)
  }

  ghost predicate IsLast(reqs: seq<TxRequest>, idx: u32, sig: seq<u8>) { exists k :: LastAt(reqs, idx, sig, k) }

  lemma LastAtSnoc(reqs: seq<TxRequest>, req: TxRequest, idx: u32, sig: seq<u8>, k: nat)
    ensures LastAt(reqs + [req], idx, sig, k)
      <==> if k == |reqs| then Gives(req, idx, sig)
           else LastAt(reqs, idx, sig, k) && forall other :: !Gives(req, idx, other)
  {
    var all := reqs + [req];
    assert all[|reqs|] == req;
    assert forall j :: 0 <= j < |reqs| ==> all[j] == reqs[j];
  }

  lemma {:induction false} LastSignatureIff(reqs: seq<TxRequest>, idx: u32, sig: seq<u8>)
    ensures LastSignature(reqs, idx) == Some(sig) <==> IsLast(reqs, idx, sig)
    decreases |reqs|
  {
    if reqs == [] {
    } else {
      var n := |reqs| - 1;
      LastSignatureIff(reqs[..n], idx, sig);
      GivesIsCarried(reqs[n], idx);
      assert reqs == reqs[..n] + [reqs[n]];
      forall k: nat { LastAtSnoc(reqs[..n], reqs[n], idx, sig, k); }
      assert LastAt(reqs, idx, sig, n) <==> Gives(reqs[n], idx, sig);
    }
  }

  ghost predicate AnyGiven(reqs: seq<TxRequest>, idx: u32) {
    exists k, sig :: 0 <= k < |reqs| && Gives(reqs[k], idx, sig)
  }

  /** Nothing but one entry may have changed; this is the key it stands under, and what it holds. */
  ghost predicate OnlyAdds(before: PsbtInput, after: PsbtInput, key: BtcKey, sig: PartialSig) {
    after == before.(partialSigs := after.partialSigs)
    && key in after.partialSigs && after.partialSigs[key] == sig
    && forall other :: other != key ==>
         (other in after.partialSigs <==> other in before.partialSigs)
         && (other in before.partialSigs ==> after.partialSigs[other] == before.partialSigs[other])
  }

  /** When signing succeeds: every last signature parses and belongs to an input with a derivation. */
  lemma SigningSucceedsIff(lib: Library, psbt: Psbt, testnet: bool, replies: seq<Reply>, n: nat)
    requires EndsAt(replies, n)
    ensures Signed(lib, psbt, testnet, replies).Ok?
      <==> AllAnswered(lib, psbt, testnet, replies, n)
           && forall idx, der :: IsLast(Requests(replies, n), idx, der) ==>
                idx as int < |psbt.inputs| && psbt.inputs[idx].derivations != [] && lib.fromDer(der).Some?
  {
    var reqs := Requests(replies, n);
    SignatureConservation(lib, psbt, testnet, replies, n);
    forall idx, der { LastSignatureIff(reqs, idx, der); }
    assert forall idx, der :: IsLast(reqs, idx, der) <==> LastSignature(reqs, idx) == Some(der);
  }

  /** And then: an input with a last signature has gained that one, under its first derivation key, and any other input
      is as it was. */
  lemma SigningOnlyAdds(lib: Library, psbt: Psbt, testnet: bool, replies: seq<Reply>, n: nat, i: nat)
    requires EndsAt(replies, n) && Signed(lib, psbt, testnet, replies).Ok? && i < |psbt.inputs|
    ensures |Signed(lib, psbt, testnet, replies).value.inputs| == |psbt.inputs|
    ensures var before, after := psbt.inputs[i], Signed(lib, psbt, testnet, replies).value.inputs[i];
      forall der :: i < 0x1_0000_0000 && IsLast(Requests(replies, n), i as u32, der) ==>
        before.derivations != [] && lib.fromDer(der).Some?
        && OnlyAdds(before, after, BtcKey(before.derivations[0].0, true), PartialSig(lib.fromDer(der).value, true))
    ensures i >= 0x1_0000_0000 || !AnyGiven(Requests(replies, n), i as u32) ==>
      Signed(lib, psbt, testnet, replies).value.inputs[i] == psbt.inputs[i]
  {
    var reqs := Requests(replies, n);
    SignatureConservation(lib, psbt, testnet, replies, n);
    SigningSucceedsIff(lib, psbt, testnet, replies, n);
    if i < 0x1_0000_0000 {
      forall der { LastSignatureIff(reqs, i as u32, der); }
      var last := LastSignature(reqs, i as u32);
      if last.Some? { assert IsLast(reqs, i as u32, last.value); }
    }
  }

  /** Signatures come back only behind a request to finish with nothing but requests before it. */
  lemma {:induction false} SigningEnds(lib: Library, psbt: Psbt, testnet: bool, replies: seq<Reply>,
                                       sigs: map<u32, seq<u8>>) returns (n: nat)
    requires Stream(lib, psbt, testnet, replies, sigs).0.Ok?
    ensures EndsAt(replies, n)
    decreases |replies|
  {
    if RequestKind(replies[0].req) == TXFINISHED {
      n := 0;
    } else {
      var m := SigningEnds(lib, psbt, testnet, replies[1..], Noted(sigs, replies[0].req));
      n := m + 1;
    }
  }

  // ---- What the device can put together ----

  type Log = seq<(TxRequest, Ack)>

  /** Which part a request is for. */
  datatype Ask = Ask(kind: int, hash: Option<seq<u8>>, index: nat)

  function AskOf(req: TxRequest): Ask {
    Ask(RequestKind(req), TxHash(req), if RequestKind(req) == TXMETA then 0 else RequestIndex(req))
  }

  ghost predicate Asked(log: Log, a: Ask) { exists k :: 0 <= k < |log| && AskOf(log[k].0) == a }

  /** Any answer that was given for the part: the device may have asked more than once, in any order. */
  ghost function Answered(log: Log, a: Ask): Ack
    requires Asked(log, a)
  {
    var k :| 0 <= k < |log| && AskOf(log[k].0) == a;
    log[k].1
  }

  lemma {:induction false} LogIsAnswers(lib: Library, psbt: Psbt, testnet: bool, replies: seq<Reply>,
                                        sigs: map<u32, seq<u8>>, k: nat)
    requires k < |Stream(lib, psbt, testnet, replies, sigs).1|
    ensures var e := Stream(lib, psbt, testnet, replies, sigs).1[k]; Answer(lib, psbt, testnet, e.0) == Ok(e.1)
    decreases k
  {
    if k == 0 {
    } else {
      LogIsAnswers(lib, psbt, testnet, replies[1..], Noted(sigs, replies[0].req), k - 1);
    }
  }

  /** The replies up to k are requests to be answered, and can be. */
  ghost predicate AnsweredUpTo(lib: Library, psbt: Psbt, testnet: bool, replies: seq<Reply>, k: nat) {
    k < |replies| && forall j :: 0 <= j <= k ==>
      replies[j].Request? && RequestKind(replies[j].req) != TXFINISHED && Answer(lib, psbt, testnet, replies[j].req).Ok?
  }

  /** Every request is answered in its turn until one ends the exchange or cannot be answered: entry k of the log is
      there exactly when the first k + 1 replies are such requests, and belongs to the last of them. */
  lemma {:induction false} LogIff(lib: Library, psbt: Psbt, testnet: bool, replies: seq<Reply>,
                                  sigs: map<u32, seq<u8>>, k: nat)
    ensures k < |Stream(lib, psbt, testnet, replies, sigs).1| <==> AnsweredUpTo(lib, psbt, testnet, replies, k)
    ensures AnsweredUpTo(lib, psbt, testnet, replies, k) ==>
      Stream(lib, psbt, testnet, replies, sigs).1[k].0 == replies[k].req
    decreases |replies|
  {
    hide Answer;
    if replies != [] && AnsweredUpTo(lib, psbt, testnet, replies, 0) {
      var tail := replies[1..];
      assert forall j :: 0 <= j < |tail| ==> tail[j] == replies[j + 1];
      if k > 0 {
        LogIff(lib, psbt, testnet, tail, Noted(sigs, replies[0].req), k - 1);
        AnsweredBehind(lib, psbt, testnet, replies, k);
      }
    }
  }

  lemma AnsweredBehind(lib: Library, psbt: Psbt, testnet: bool, replies: seq<Reply>, k: nat)
    requires AnsweredUpTo(lib, psbt, testnet, replies, 0) && k > 0
    ensures AnsweredUpTo(lib, psbt, testnet, replies, k) <==> AnsweredUpTo(lib, psbt, testnet, replies[1..], k - 1)
  {
    hide Answer;
    var tail := replies[1..];
    if AnsweredUpTo(lib, psbt, testnet, tail, k - 1) {
      forall j | 0 <= j <= k
        ensures replies[j].Request? && RequestKind(replies[j].req) != TXFINISHED
        ensures Answer(lib, psbt, testnet, replies[j].req).Ok?
      {
        if j > 0 { assert replies[j] == tail[j - 1]; }
      }
    }
  }

  /** A log of answers to requests about one PSBT. */
  ghost predicate Faithful(lib: Library, psbt: Psbt, testnet: bool, log: Log) {
    forall k :: 0 <= k < |log| ==> Answer(lib, psbt, testnet, log[k].0) == Ok(log[k].1)
  }

  lemma StreamIsFaithful(lib: Library, psbt: Psbt, testnet: bool, replies: seq<Reply>)
    ensures Faithful(lib, psbt, testnet, Stream(lib, psbt, testnet, replies, map[]).1)
  {
    var log := Stream(lib, psbt, testnet, replies, map[]).1;
    forall k | 0 <= k < |log| ensures Answer(lib, psbt, testnet, log[k].0) == Ok(log[k].1) {
      LogIsAnswers(lib, psbt, testnet, replies, map[], k);
    }
  }

  /** What a transaction spends and pays, without its scripts. */
  datatype View = View(version: i32, lockTime: u32, spends: seq<(OutPoint, u32)>, amounts: seq<u64>)

  function ViewOf(t: Tx): View {
    View(t.version, t.lockTime,
         seq(|t.inputs|, i requires 0 <= i < |t.inputs| => (t.inputs[i].previous, t.inputs[i].sequence)),
         seq(|t.outputs|, i requires 0 <= i < |t.outputs| => t.outputs[i].value))
  }

  function Spend(a: Ack): (OutPoint, u32) {
    if a.InputAck? then (OutPoint(Reversed(a.prevHash), a.prevIndex), a.sequence) else (OutPoint([], 0), 0)
  }

  function Amount(a: Ack): u64 { if a.OutputAck? || a.PrevOutputAck? then a.amount else 0 }

  function InputAsk(i: nat): Ask { Ask(TXINPUT, None, i) }

  function OutputAsk(i: nat): Ask { Ask(TXOUTPUT, None, i) }

  ghost predicate HasAll(header: SignTx, log: Log) {
    (forall i :: 0 <= i < header.inputsCount as nat ==> Asked(log, InputAsk(i)))
    && (forall i :: 0 <= i < header.outputsCount as nat ==> Asked(log, OutputAsk(i)))
  }

  /** The transaction a device puts together from the opening message and the answers it has. */
  ghost function DeviceView(header: SignTx, log: Log): View
    requires HasAll(header, log)
  {
    var ins, outs := header.inputsCount as nat, header.outputsCount as nat;
    View(AsI32(header.version), header.lockTime,
         seq(ins, i requires 0 <= i < ins => Spend(Answered(log, InputAsk(i)))),
         seq(outs, i requires 0 <= i < outs => Amount(Answered(log, OutputAsk(i)))))
  }

  lemma CastRoundTrip(v: i32)
    ensures AsI32(AsU32(v)) == v
  {
  }

  predicate WireSized(t: Tx) { |t.inputs| < 0x1_0000_0000 && |t.outputs| < 0x1_0000_0000 }

  lemma InputAnswer(lib: Library, psbt: Psbt, testnet: bool, log: Log, i: nat)
    requires Faithful(lib, psbt, testnet, log) && Asked(log, InputAsk(i)) && i < |psbt.unsigned.inputs|
    ensures Spend(Answered(log, InputAsk(i))) == (psbt.unsigned.inputs[i].previous, psbt.unsigned.inputs[i].sequence)
  {
    ReversedTwice(psbt.unsigned.inputs[i].previous.txid);
  }

  lemma OutputAnswer(lib: Library, psbt: Psbt, testnet: bool, log: Log, i: nat)
    requires Faithful(lib, psbt, testnet, log) && Asked(log, OutputAsk(i)) && i < |psbt.unsigned.outputs|
    ensures Amount(Answered(log, OutputAsk(i))) == psbt.unsigned.outputs[i].value
  {
  }

  /** In whatever order and however often it asks, a device with an answer for every index holds the version, lock
      time, outpoints, sequences and amounts of the transaction in the PSBT. */
  lemma StreamingFidelity(lib: Library, psbt: Psbt, coinType: u32, testnet: bool, log: Log)
    requires Faithful(lib, psbt, testnet, log) && WireSized(psbt.unsigned) && HasAll(Header(psbt, coinType), log)
    ensures DeviceView(Header(psbt, coinType), log) == ViewOf(psbt.unsigned)
  {
    var got, want := DeviceView(Header(psbt, coinType), log), ViewOf(psbt.unsigned);
    CastRoundTrip(psbt.unsigned.version);
    forall i | 0 <= i < |want.spends| ensures got.spends[i] == want.spends[i] {
      InputAnswer(lib, psbt, testnet, log, i);
    }
    forall i | 0 <= i < |want.amounts| ensures got.amounts[i] == want.amounts[i] {
      OutputAnswer(lib, psbt, testnet, log, i);
    }
  }

  // ---- Previous transactions ----

  function MetaAsk(hash: seq<u8>): Ask { Ask(TXMETA, Some(hash), 0) }

  function PrevInputAsk(hash: seq<u8>, i: nat): Ask { Ask(TXINPUT, Some(hash), i) }

  function PrevOutputAsk(hash: seq<u8>, i: nat): Ask { Ask(TXOUTPUT, Some(hash), i) }

  ghost predicate HasPrev(hash: seq<u8>, log: Log) {
    Asked(log, MetaAsk(hash)) && Answered(log, MetaAsk(hash)).PrevMetaAck?
    && (forall i :: 0 <= i < Answered(log, MetaAsk(hash)).inputsCount as nat ==> Asked(log, PrevInputAsk(hash, i)))
    && (forall i :: 0 <= i < Answered(log, MetaAsk(hash)).outputsCount as nat ==> Asked(log, PrevOutputAsk(hash, i)))
  }

  function PrevIn(a: Ack): TxIn {
    if a.PrevInputAck? then TxIn(OutPoint(Reversed(a.prevHash), a.prevIndex), a.scriptSig, a.sequence)
    else TxIn(OutPoint([], 0), [], 0)
  }

  function PrevOut(a: Ack): TxOut { if a.PrevOutputAck? then TxOut(a.amount, a.scriptPubkey) else TxOut(0, []) }

  /** The previous transaction a device puts together from the answers about one hash. */
  ghost function DevicePrevTx(hash: seq<u8>, log: Log): Tx
    requires HasPrev(hash, log)
  {
    var meta := Answered(log, MetaAsk(hash));
    var ins, outs := meta.inputsCount as nat, meta.outputsCount as nat;
    Tx(AsI32(meta.version), meta.lockTime,
       seq(ins, i requires 0 <= i < ins => PrevIn(Answered(log, PrevInputAsk(hash, i)))),
       seq(outs, i requires 0 <= i < outs => PrevOut(Answered(log, PrevOutputAsk(hash, i)))))
  }

  ghost predicate PrevsWireSized(psbt: Psbt) {
    forall k :: 0 <= k < |psbt.inputs| && psbt.inputs[k].nonWitnessUtxo.Some? ==>
      WireSized(psbt.inputs[k].nonWitnessUtxo.value)
  }

  lemma {:induction false} FoundIsCarried(lib: Library, psbt: Psbt, hash: seq<u8>, from: nat)
    requires from <= |psbt.inputs| && FindPrevFrom(lib, psbt, hash, from).Ok? && PrevsWireSized(psbt)
    ensures var t := FindPrevFrom(lib, psbt, hash, from).value; Reversed(lib.txid(t)) == hash && WireSized(t)
    decreases |psbt.inputs| - from
  {
    var prev := psbt.inputs[from].nonWitnessUtxo;
    if prev.Some? && Reversed(lib.txid(prev.value)) == hash {
    } else {
      FoundIsCarried(lib, psbt, hash, from + 1);
    }
  }

  lemma MetaAnswer(lib: Library, psbt: Psbt, testnet: bool, log: Log, hash: seq<u8>)
    requires Faithful(lib, psbt, testnet, log) && Asked(log, MetaAsk(hash))
    ensures FindPrev(lib, psbt, hash).Ok?
    ensures var t, meta := FindPrev(lib, psbt, hash).value, Answered(log, MetaAsk(hash));
      meta == PrevMetaAck(AsU32(t.version), t.lockTime, Count(|t.inputs|), Count(|t.outputs|))
  {
  }

  lemma PrevInputAnswer(lib: Library, psbt: Psbt, testnet: bool, log: Log, hash: seq<u8>, i: nat)
    requires Faithful(lib, psbt, testnet, log) && Asked(log, PrevInputAsk(hash, i))
    ensures FindPrev(lib, psbt, hash).Ok? && i < |FindPrev(lib, psbt, hash).value.inputs|
    ensures PrevIn(Answered(log, PrevInputAsk(hash, i))) == FindPrev(lib, psbt, hash).value.inputs[i]
  {
    var a := Answered(log, PrevInputAsk(hash, i));
    var t := FindPrev(lib, psbt, hash).value;
    ReversedTwice(t.inputs[i].previous.txid);
  }

  lemma PrevOutputAnswer(lib: Library, psbt: Psbt, testnet: bool, log: Log, hash: seq<u8>, i: nat)
    requires Faithful(lib, psbt, testnet, log) && Asked(log, PrevOutputAsk(hash, i))
    ensures FindPrev(lib, psbt, hash).Ok? && i < |FindPrev(lib, psbt, hash).value.outputs|
    ensures PrevOut(Answered(log, PrevOutputAsk(hash, i))) == FindPrev(lib, psbt, hash).value.outputs[i]
  {
    var a := Answered(log, PrevOutputAsk(hash, i));
  }

  lemma DevicePrevIsFound(lib: Library, psbt: Psbt, testnet: bool, log: Log, hash: seq<u8>)
    requires Faithful(lib, psbt, testnet, log) && PrevsWireSized(psbt) && HasPrev(hash, log)
    ensures FindPrev(lib, psbt, hash) == Ok(DevicePrevTx(hash, log))
  {
    MetaAnswer(lib, psbt, testnet, log, hash);
    var t, got := FindPrev(lib, psbt, hash).value, DevicePrevTx(hash, log);
    FoundIsCarried(lib, psbt, hash, 0);
    CastRoundTrip(t.version);
    forall i | 0 <= i < |t.inputs| ensures got.inputs[i] == t.inputs[i] {
      PrevInputAnswer(lib, psbt, testnet, log, hash, i);
    }
    forall i | 0 <= i < |t.outputs| ensures got.outputs[i] == t.outputs[i] {
      PrevOutputAnswer(lib, psbt, testnet, log, hash, i);
    }
    assert got == t;
  }

  /** What the device collects about a hash is the whole transaction with exactly that id. */
  lemma PrevTxFidelity(lib: Library, psbt: Psbt, testnet: bool, log: Log, hash: seq<u8>)
    requires Faithful(lib, psbt, testnet, log) && PrevsWireSized(psbt) && HasPrev(hash, log)
    ensures Reversed(lib.txid(DevicePrevTx(hash, log))) == hash
  {
    DevicePrevIsFound(lib, psbt, testnet, log, hash);
    FoundIsCarried(lib, psbt, hash, 0);
  }

  // ---- What the device checks ----

  /** Every input carries the transaction it spends from, a witness output only repeats it, and no two different
      carried transactions share an id. */
  ghost predicate Consistent(lib: Library, psbt: Psbt) {
    |psbt.inputs| == |psbt.unsigned.inputs|
    && (forall i :: 0 <= i < |psbt.inputs| ==> CarriesItsPrev(lib, psbt.unsigned.inputs[i], psbt.inputs[i]))
    && (forall i, k :: 0 <= i < |psbt.inputs| && 0 <= k < |psbt.inputs|
          && psbt.inputs[i].nonWitnessUtxo.Some? && psbt.inputs[k].nonWitnessUtxo.Some?
          && lib.txid(psbt.inputs[i].nonWitnessUtxo.value) == lib.txid(psbt.inputs[k].nonWitnessUtxo.value)
          ==> psbt.inputs[i].nonWitnessUtxo == psbt.inputs[k].nonWitnessUtxo)
  }

  ghost predicate CarriesItsPrev(lib: Library, txin: TxIn, pin: PsbtInput) {
    pin.nonWitnessUtxo.Some?
    && (var prev := pin.nonWitnessUtxo.value;
        lib.txid(prev) == txin.previous.txid && txin.previous.vout as int < |prev.outputs|
        && (pin.witnessUtxo.Some? ==> pin.witnessUtxo.value == prev.outputs[txin.previous.vout]))
  }

  lemma {:induction false} FindsCarried(lib: Library, psbt: Psbt, i: nat, from: nat)
    requires Consistent(lib, psbt) && from <= i < |psbt.inputs|
    ensures FindPrevFrom(lib, psbt, Reversed(psbt.unsigned.inputs[i].previous.txid), from)
      == Ok(psbt.inputs[i].nonWitnessUtxo.value)
    decreases |psbt.inputs| - from
  {
    var id := psbt.unsigned.inputs[i].previous.txid;
    assert CarriesItsPrev(lib, psbt.unsigned.inputs[i], psbt.inputs[i]);
    var prev := psbt.inputs[from].nonWitnessUtxo;
    if prev.Some? && Reversed(lib.txid(prev.value)) == Reversed(id) {
      ReversedTwice(lib.txid(prev.value));
      ReversedTwice(id);
    } else {
      FindsCarried(lib, psbt, i, from + 1);
    }
  }

  /** The amount sent for an input is the amount of the output it spends, in the previous transaction that the device
      puts together under the outpoint's hash: the comparison that the device makes succeeds. */
  lemma SpentAmountChecks(lib: Library, psbt: Psbt, testnet: bool, log: Log, i: nat)
    requires Faithful(lib, psbt, testnet, log) && Consistent(lib, psbt) && PrevsWireSized(psbt)
    requires i < |psbt.inputs| && Asked(log, InputAsk(i))
    requires HasPrev(Reversed(psbt.unsigned.inputs[i].previous.txid), log)
    ensures var sent := Answered(log, InputAsk(i));
      var prev := DevicePrevTx(Reversed(psbt.unsigned.inputs[i].previous.txid), log);
      sent.InputAck? && sent.prevIndex as int < |prev.outputs| && sent.spent == prev.outputs[sent.prevIndex].value
  {
    var hash := Reversed(psbt.unsigned.inputs[i].previous.txid);
    FindsCarried(lib, psbt, i, 0);
    DevicePrevIsFound(lib, psbt, testnet, log, hash);
    assert CarriesItsPrev(lib, psbt.unsigned.inputs[i], psbt.inputs[i]);
  }

  /** An output is presented as the wallet's own exactly when the PSBT holds a derivation for it; any other is
      presented by the address of its script. */
  lemma ChangeIff(lib: Library, psbt: Psbt, testnet: bool, log: Log, i: nat)
    requires Faithful(lib, psbt, testnet, log) && Asked(log, OutputAsk(i))
    ensures i < |psbt.unsigned.outputs| && Answered(log, OutputAsk(i)).OutputAck?
    ensures var to := Answered(log, OutputAsk(i)).destination;
      (to.OwnPath? <==> i < |psbt.outputs| && psbt.outputs[i] != [])
      && (to.OwnPath? ==> to.addressN == psbt.outputs[i][0].1)
      && (to.External? ==> lib.address(psbt.unsigned.outputs[i].scriptPubkey, testnet) == Some(to.address))
  {
    var a := Answered(log, OutputAsk(i));
  }
}
