/** Signing a PSBT by answering the device's requests for parts of it. */
module Bitcoin {
  import opened Results
  import opened Words

  newtype i32 = x: int | -0x8000_0000 <= x < 0x8000_0000

  // ---- Transactions ----

  /** A transaction id in the order it is hashed in; it is shown reversed. */
  datatype OutPoint = OutPoint(txid: seq<u8>, vout: u32)
  datatype TxIn = TxIn(previous: OutPoint, scriptSig: seq<u8>, sequence: u32)
  datatype TxOut = TxOut(value: u64, scriptPubkey: seq<u8>)
  datatype Tx = Tx(version: i32, lockTime: u32, inputs: seq<TxIn>, outputs: seq<TxOut>)

  type PubKey = seq<u8>
  datatype BtcKey = BtcKey(inner: PubKey, compressed: bool)
  datatype PartialSig = PartialSig(signature: seq<u8>, sighashAll: bool)

  /** A derivation map as its entries in key order. */
  type Derivations = seq<(PubKey, seq<u32>)>

  datatype PsbtInput = PsbtInput(witnessUtxo: Option<TxOut>, nonWitnessUtxo: Option<Tx>, derivations: Derivations,
                                 partialSigs: map<BtcKey, PartialSig>)
  datatype Psbt = Psbt(unsigned: Tx, inputs: seq<PsbtInput>, outputs: seq<Derivations>)

  /** Library calls: transaction ids, DER parsing, and the address of a script (on the test network or not). */
  datatype Library = Library(txid: Tx -> seq<u8>, fromDer: seq<u8> -> Option<seq<u8>>,
                             address: (seq<u8>, bool) -> Option<string>)

  // ---- Messages ----

  datatype Serialized = Serialized(signatureIndex: Option<u32>, signature: Option<seq<u8>>)
  datatype Details = Details(requestIndex: Option<u32>, txHash: Option<seq<u8>>)
  datatype TxRequest = TxRequest(requestType: Option<int>, details: Option<Details>, serialized: Option<Serialized>)

  /** What comes back for one message: a request, or a message of another type or one that does not decode. */
  datatype Reply = Request(req: TxRequest) | Unexpected

  const TXINPUT := 0
  const TXOUTPUT := 1
  const TXMETA := 2
  const TXFINISHED := 3

  datatype InputScript = SpendAddress | SpendP2shWitness | SpendWitness
  datatype OutputScript = PayToAddress | PayToP2shWitness | PayToWitness
  datatype Destination = OwnPath(addressN: seq<u32>) | External(address: string)

  datatype Ack =
    | InputAck(inputScript: InputScript, addressN: seq<u32>, prevHash: seq<u8>, prevIndex: u32, sequence: u32, spent: u64)
    | OutputAck(destination: Destination, amount: u64, outputScript: OutputScript)
    | PrevMetaAck(version: u32, lockTime: u32, inputsCount: u32, outputsCount: u32)
    | PrevInputAck(prevHash: seq<u8>, prevIndex: u32, scriptSig: seq<u8>, sequence: u32)
    | PrevOutputAck(amount: u64, scriptPubkey: seq<u8>)

  datatype SignTx = SignTx(outputsCount: u32, inputsCount: u32, coinName: string, version: u32, lockTime: u32)

  // ---- Casts ----

  function AsU32(v: i32): u32 { if v < 0 then (v as int + 0x1_0000_0000) as u32 else v as u32 }

  function AsI32(v: u32): i32 { if v < 0x8000_0000 then v as i32 else (v as int - 0x1_0000_0000) as i32 }

  function Count(n: nat): u32 { (n % 0x1_0000_0000) as u32 }

  // ---- Answers ----

  function ScriptTypeForPath(addressN: seq<u32>): InputScript {
    if addressN == [] then SpendWitness
    else
      var purpose := addressN[0] as int % 0x8000_0000;
      if purpose == 44 then SpendAddress else if purpose == 49 then SpendP2shWitness else SpendWitness
  }

  /** The amount an input spends: from the witness output, else from the previous transaction. */
  function SpentAmount(txin: TxIn, pin: PsbtInput): Result<u64> {
    if pin.witnessUtxo.Some? then Ok(pin.witnessUtxo.value.value)
    else if pin.nonWitnessUtxo.None? then Err
    else
      var outputs := pin.nonWitnessUtxo.value.outputs;
      if txin.previous.vout as int >= |outputs| then Err else Ok(outputs[txin.previous.vout].value)
  }

  function BuildInputAck(psbt: Psbt, i: nat): Result<Ack> {
    if i >= |psbt.unsigned.inputs| || i >= |psbt.inputs| then Err
    else
      var txin, pin := psbt.unsigned.inputs[i], psbt.inputs[i];
      var amount := SpentAmount(txin, pin);
      if amount.Err? || pin.derivations == [] then Err
      else
        var path := pin.derivations[0].1;
        Ok(InputAck(ScriptTypeForPath(path), path, Reversed(txin.previous.txid), txin.previous.vout, txin.sequence,
                    amount.value))
  }

  function OutputScriptFor(path: seq<u32>): OutputScript {
    match ScriptTypeForPath(path)
    case SpendP2shWitness => PayToP2shWitness
    case SpendAddress => PayToAddress
    case SpendWitness => PayToWitness
  }

  function BuildOutputAck(lib: Library, psbt: Psbt, i: nat, testnet: bool): Result<Ack> {
    if i >= |psbt.unsigned.outputs| then Err
    else
      var out := psbt.unsigned.outputs[i];
      if i < |psbt.outputs| && psbt.outputs[i] != [] then
        var path := psbt.outputs[i][0].1;
        Ok(OutputAck(OwnPath(path), out.value, OutputScriptFor(path)))
      else
        var address := lib.address(out.scriptPubkey, testnet);
        if address.None? then Err else Ok(OutputAck(External(address.value), out.value, PayToAddress))
  }

  /** The previous transaction with a given displayed id, from the first input that carries one. */
  function FindPrevFrom(lib: Library, psbt: Psbt, hash: seq<u8>, from: nat): Result<Tx>
    requires from <= |psbt.inputs|
    decreases |psbt.inputs| - from
  {
    if from == |psbt.inputs| then Err
    else
      var prev := psbt.inputs[from].nonWitnessUtxo;
      if prev.Some? && Reversed(lib.txid(prev.value)) == hash then Ok(prev.value)
      else FindPrevFrom(lib, psbt, hash, from + 1)
  }

  function FindPrev(lib: Library, psbt: Psbt, hash: seq<u8>): Result<Tx> { FindPrevFrom(lib, psbt, hash, 0) }

  function BuildPrevMetaAck(lib: Library, psbt: Psbt, hash: seq<u8>): Result<Ack> {
    var prev := FindPrev(lib, psbt, hash);
    if prev.Err? then Err
    else
      var t := prev.value;
      Ok(PrevMetaAck(AsU32(t.version), t.lockTime, Count(|t.inputs|), Count(|t.outputs|)))
  }

  function BuildPrevInputAck(lib: Library, psbt: Psbt, hash: seq<u8>, i: nat): Result<Ack> {
    var prev := FindPrev(lib, psbt, hash);
    if prev.Err? || i >= |prev.value.inputs| then Err
    else
      var txin := prev.value.inputs[i];
      Ok(PrevInputAck(Reversed(txin.previous.txid), txin.previous.vout, txin.scriptSig, txin.sequence))
  }

  function BuildPrevOutputAck(lib: Library, psbt: Psbt, hash: seq<u8>, i: nat): Result<Ack> {
    var prev := FindPrev(lib, psbt, hash);
    if prev.Err? || i >= |prev.value.outputs| then Err
    else Ok(PrevOutputAck(prev.value.outputs[i].value, prev.value.outputs[i].scriptPubkey))
  }

  function RequestIndex(req: TxRequest): nat {
    if req.details.Some? && req.details.value.requestIndex.Some? then req.details.value.requestIndex.value as nat else 0
  }

  function TxHash(req: TxRequest): Option<seq<u8>> { if req.details.Some? then req.details.value.txHash else None }

  function RequestKind(req: TxRequest): int { if req.requestType.Some? then req.requestType.value else TXFINISHED }

  /** The acknowledgement of a request that is not the last. */
  function Answer(lib: Library, psbt: Psbt, testnet: bool, req: TxRequest): Result<Ack> {
    var kind, hash, i := RequestKind(req), TxHash(req), RequestIndex(req);
    if kind == TXINPUT then
      if hash.Some? then BuildPrevInputAck(lib, psbt, hash.value, i) else BuildInputAck(psbt, i)
    else if kind == TXOUTPUT then
      if hash.Some? then BuildPrevOutputAck(lib, psbt, hash.value, i) else BuildOutputAck(lib, psbt, i, testnet)
    else if kind == TXMETA then
      if hash.Some? then BuildPrevMetaAck(lib, psbt, hash.value) else Err
    else Err
  }

  // ---- Signatures ----

  /** The signature a request carries, if it names its input. */
  function Carried(req: TxRequest): Option<(u32, seq<u8>)> {
    if req.serialized.Some? && req.serialized.value.signatureIndex.Some? && req.serialized.value.signature.Some?
    then Some((req.serialized.value.signatureIndex.value, req.serialized.value.signature.value))
    else None
  }

  function Noted(sigs: map<u32, seq<u8>>, req: TxRequest): map<u32, seq<u8>> {
    var c := Carried(req);
    if c.Some? then sigs[c.value.0 := c.value.1] else sigs
  }

  predicate Mergeable(lib: Library, inputs: seq<PsbtInput>, idx: u32, der: seq<u8>) {
    idx as int < |inputs| && inputs[idx].derivations != [] && lib.fromDer(der).Some?
  }

  function SignedInput(lib: Library, input: PsbtInput, der: seq<u8>): PsbtInput
    requires input.derivations != [] && lib.fromDer(der).Some?
  {
    input.(partialSigs := input.partialSigs[BtcKey(input.derivations[0].0, true)
                                            := PartialSig(lib.fromDer(der).value, true)])
  }

  ghost predicate AllMergeable(lib: Library, inputs: seq<PsbtInput>, sigs: map<u32, seq<u8>>) {
    forall idx :: idx in sigs ==> Mergeable(lib, inputs, idx, sigs[idx])
  }

  ghost function Merged(lib: Library, inputs: seq<PsbtInput>, sigs: map<u32, seq<u8>>): seq<PsbtInput>
    requires AllMergeable(lib, inputs, sigs)
  {
    seq(|inputs|, i requires 0 <= i < |inputs| =>
      if i < 0x1_0000_0000 && i as u32 in sigs then SignedInput(lib, inputs[i], sigs[i as u32]) else inputs[i])
  }

  // ---- The exchange ----

  function CoinName(coinType: u32): string { if coinType == 1 then "Testnet" else "Bitcoin" }

  function Header(psbt: Psbt, coinType: u32): SignTx {
    var t := psbt.unsigned;
    SignTx(Count(|t.outputs|), Count(|t.inputs|), CoinName(coinType), AsU32(t.version), t.lockTime)
  }

  /** What the loop does with the replies still to come: the signatures collected, and the requests with the answers
      sent; Err when a reply is not a request, a request cannot be answered, or the replies end. */
  function Stream(lib: Library, psbt: Psbt, testnet: bool, replies: seq<Reply>, sigs: map<u32, seq<u8>>)
    : (Result<map<u32, seq<u8>>>, seq<(TxRequest, Ack)>)
    decreases |replies|
  {
    if replies == [] || replies[0].Unexpected? then (Err, [])
    else
      var req := replies[0].req;
      var noted := Noted(sigs, req);
      if RequestKind(req) == TXFINISHED then (Ok(noted), [])
      else
        var ack := Answer(lib, psbt, testnet, req);
        if ack.Err? then (Err, [])
        else
          var rest := Stream(lib, psbt, testnet, replies[1..], noted);
          (rest.0, [(req, ack.value)] + rest.1)
  }

  ghost function Signed(lib: Library, psbt: Psbt, testnet: bool, replies: seq<Reply>): Result<Psbt> {
    var sigs := Stream(lib, psbt, testnet, replies, map[]).0;
    if sigs.Err? || !AllMergeable(lib, psbt.inputs, sigs.value) then Err
    else Ok(psbt.(inputs := Merged(lib, psbt.inputs, sigs.value)))
  }

  method FindPrevTx(lib: Library, psbt: Psbt, hash: seq<u8>) returns (r: Result<Tx>)
    ensures r == FindPrev(lib, psbt, hash)
    ensures r.Ok? ==> Reversed(lib.txid(r.value)) == hash
    ensures r.Err? <==> forall k :: 0 <= k < |psbt.inputs| && psbt.inputs[k].nonWitnessUtxo.Some? ==>
      Reversed(lib.txid(psbt.inputs[k].nonWitnessUtxo.value)) != hash
  {
    for i := 0 to |psbt.inputs|
      invariant FindPrevFrom(lib, psbt, hash, i) == FindPrev(lib, psbt, hash)
      invariant forall k :: 0 <= k < i && psbt.inputs[k].nonWitnessUtxo.Some? ==>
        Reversed(lib.txid(psbt.inputs[k].nonWitnessUtxo.value)) != hash
    {
      var prev := psbt.inputs[i].nonWitnessUtxo;
      if prev.Some? && Reversed(lib.txid(prev.value)) == hash { return Ok(prev.value); }
    }
    r := Err;
  }

  /** Merging the collected signatures. Failures carry no text here, so the order of the entries does not show. */
  method MergeSignatures(lib: Library, psbt: Psbt, sigs: map<u32, seq<u8>>) returns (r: Result<Psbt>)
    ensures r == if AllMergeable(lib, psbt.inputs, sigs) then Ok(psbt.(inputs := Merged(lib, psbt.inputs, sigs))) else Err
  {
    var signed := psbt;
    var left := sigs.Keys;
    while left != {}
      invariant left <= sigs.Keys
      invariant signed == psbt.(inputs := signed.inputs) && |signed.inputs| == |psbt.inputs|
      invariant forall idx :: idx in sigs && idx !in left ==> Mergeable(lib, psbt.inputs, idx, sigs[idx])
      invariant forall i :: 0 <= i < |psbt.inputs| ==>
        signed.inputs[i] == (if i < 0x1_0000_0000 && i as u32 in sigs && i as u32 !in left
                             then SignedInput(lib, psbt.inputs[i], sigs[i as u32]) else psbt.inputs[i])
      decreases left
    {
      var idx :| idx in left;
      if idx as int >= |signed.inputs| { return Err; }
      var input := signed.inputs[idx];
      if input.derivations == [] { return Err; }
      var sig := lib.fromDer(sigs[idx]);
      if sig.None? { return Err; }
      var key := BtcKey(input.derivations[0].0, true);
      input := input.(partialSigs := input.partialSigs[key := PartialSig(sig.value, true)]);
      signed := signed.(inputs := signed.inputs[idx as int := input]);
      left := left - {idx};
    }
    assert signed.inputs == Merged(lib, psbt.inputs, sigs);
    r := Ok(signed);
  }

  lemma StreamStep(lib: Library, psbt: Psbt, testnet: bool, replies: seq<Reply>, next: nat, sigs: map<u32, seq<u8>>,
                   done: seq<(TxRequest, Ack)>)
    requires next < |replies| && replies[next].Request? && RequestKind(replies[next].req) != TXFINISHED
    requires Answer(lib, psbt, testnet, replies[next].req).Ok?
    ensures var req := replies[next].req;
      var here := Stream(lib, psbt, testnet, replies[next..], sigs);
      var there := Stream(lib, psbt, testnet, replies[next + 1..], Noted(sigs, req));
      here.0 == there.0
      && done + here.1 == done + [(req, Answer(lib, psbt, testnet, req).value)] + there.1
  {
    assert replies[next..][1..] == replies[next + 1..];
  }

  /** The exchange itself. The device is whatever gives these replies: it may choose each after seeing the answers
      before it. */
  method CollectSignatures(lib: Library, psbt: Psbt, testnet: bool, replies: seq<Reply>)
    returns (r: Result<map<u32, seq<u8>>>, sent: seq<Ack>)
    ensures r == Stream(lib, psbt, testnet, replies, map[]).0
    ensures var log := Stream(lib, psbt, testnet, replies, map[]).1;
      |sent| == |log| && forall k :: 0 <= k < |log| ==> sent[k] == log[k].1
  {
    hide Answer;
    var sigs: map<u32, seq<u8>> := map[];
    var next := 0;
    sent := [];
    ghost var log: seq<(TxRequest, Ack)> := [];
    ghost var whole := Stream(lib, psbt, testnet, replies, map[]);
    assert replies[0..] == replies && [] + whole.1 == whole.1;
    while true
      invariant 0 <= next <= |replies|
      invariant |sent| == |log| && forall k :: 0 <= k < |log| ==> sent[k] == log[k].1
      invariant whole.0 == Stream(lib, psbt, testnet, replies[next..], sigs).0
      invariant whole.1 == log + Stream(lib, psbt, testnet, replies[next..], sigs).1
      decreases |replies| - next
    {
      assert log + [] == log;
      if next == |replies| || replies[next].Unexpected? { r := Err; break; }
      var req := replies[next].req;
      ghost var before := sigs;
      var carried := Carried(req);
      if carried.Some? { sigs := sigs[carried.value.0 := carried.value.1]; }
      if RequestKind(req) == TXFINISHED { r := Ok(sigs); break; }
      var ack := Answer(lib, psbt, testnet, req);
      if ack.Err? { r := Err; break; }
      StreamStep(lib, psbt, testnet, replies, next, before, log);
      sent, log := sent + [ack.value], log + [(req, ack.value)];
      next := next + 1;
    }
  }

  method SignPsbt(lib: Library, psbt: Psbt, coinType: u32, replies: seq<Reply>)
    returns (r: Result<Psbt>, header: SignTx, sent: seq<Ack>)
    ensures r == Signed(lib, psbt, coinType == 1, replies)
    ensures header == Header(psbt, coinType)
    ensures var log := Stream(lib, psbt, coinType == 1, replies, map[]).1;
      |sent| == |log| && forall k :: 0 <= k < |log| ==> sent[k] == log[k].1
  {
    header := SignTx(Count(|psbt.unsigned.outputs|), Count(|psbt.unsigned.inputs|), CoinName(coinType),
                     AsU32(psbt.unsigned.version), psbt.unsigned.lockTime);
    var sigs, acks := CollectSignatures(lib, psbt, coinType == 1, replies);
    sent := acks;
    if sigs.Err? { return Err, header, sent; }
    r := MergeSignatures(lib, psbt, sigs.value);
  }
}
