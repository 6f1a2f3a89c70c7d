/** Every answer to the device, field by field. */
module BitcoinAnswers {
  import opened Results
  import opened Words
  import opened Bitcoin

  /** The same bytes from the other end. */
  predicate Backwards(a: seq<u8>, b: seq<u8>) {
    |a| == |b| && forall k :: 0 <= k < |a| ==> a[k] == b[|b| - 1 - k]
  }

  /** Two's complement in 32 bits. */
  predicate SameBits(unsigned: u32, signed: i32) { (unsigned as int - signed as int) % 0x1_0000_0000 == 0 }

  function Index(req: TxRequest): nat {
    match req.details
    case Some(Details(Some(i), _)) => i as nat
    case _ => 0
  }

  /** The request asks for a part of the transaction being signed. */
  predicate AboutThis(req: TxRequest) { req.details.Some? ==> req.details.value.txHash.None? }

  /** It asks for a part of the previous transaction with this id. */
  predicate AboutPrev(req: TxRequest, hash: seq<u8>) {
    req.details.Some? && req.details.value.txHash == Some(hash)
  }

  /** The first number of the path, with or without its hardening bit. */
  predicate Purpose(path: seq<u32>, n: u32)
    requires n < 0x8000_0000
  {
    path != [] && (path[0] == n || path[0] == n + 0x8000_0000)
  }

  /** An input of the transaction: answered when it exists, has a derivation, and its amount is known; the witness
      output goes before the previous transaction. */
  lemma InputIsAnswered(lib: Library, psbt: Psbt, testnet: bool, req: TxRequest)
    requires req.requestType == Some(0) && AboutThis(req)
    ensures var i, r := Index(req), Answer(lib, psbt, testnet, req);
      && (r.Ok? <==>
            && i < |psbt.unsigned.inputs| && i < |psbt.inputs| && psbt.inputs[i].derivations != []
            && (psbt.inputs[i].witnessUtxo.Some?
                || (psbt.inputs[i].nonWitnessUtxo.Some?
                    && psbt.unsigned.inputs[i].previous.vout as int < |psbt.inputs[i].nonWitnessUtxo.value.outputs|)))
      && (r.Ok? ==>
            var txin, pin, ack := psbt.unsigned.inputs[i], psbt.inputs[i], r.value;
            && ack.InputAck? && ack.addressN == pin.derivations[0].1
            && Backwards(ack.prevHash, txin.previous.txid) && ack.prevIndex == txin.previous.vout
            && ack.sequence == txin.sequence
            && (pin.witnessUtxo.Some? ==> ack.spent == pin.witnessUtxo.value.value)
            && (pin.witnessUtxo.None? ==>
                  ack.spent == pin.nonWitnessUtxo.value.outputs[txin.previous.vout].value)
            && (ack.inputScript == SpendAddress <==> Purpose(ack.addressN, 44))
            && (ack.inputScript == SpendP2shWitness <==> Purpose(ack.addressN, 49)))
  {
  }

  /** An output of the transaction: by its own path when it has a derivation, and otherwise by its address. */
  lemma OutputIsAnswered(lib: Library, psbt: Psbt, testnet: bool, req: TxRequest)
    requires req.requestType == Some(1) && AboutThis(req)
    ensures var i, r := Index(req), Answer(lib, psbt, testnet, req);
      var own := i < |psbt.outputs| && psbt.outputs[i] != [];
      && (r.Ok? <==>
            i < |psbt.unsigned.outputs|
            && (own || lib.address(psbt.unsigned.outputs[i].scriptPubkey, testnet).Some?))
      && (r.Ok? ==>
            var out, ack := psbt.unsigned.outputs[i], r.value;
            && ack.OutputAck? && ack.amount == out.value
            && (own ==>
                  && ack.destination == OwnPath(psbt.outputs[i][0].1)
                  && (ack.outputScript == PayToAddress <==> Purpose(psbt.outputs[i][0].1, 44))
                  && (ack.outputScript == PayToP2shWitness <==> Purpose(psbt.outputs[i][0].1, 49)))
            && (!own ==>
                  && ack.destination == External(lib.address(out.scriptPubkey, testnet).value)
                  && ack.outputScript == PayToAddress))
  {
  }

  /** A previous transaction: its head, its inputs and its outputs. */
  lemma PrevIsAnswered(lib: Library, psbt: Psbt, testnet: bool, req: TxRequest, hash: seq<u8>, t: Tx)
    requires AboutPrev(req, hash) && FindPrev(lib, psbt, hash) == Ok(t)
    ensures var r := Answer(lib, psbt, testnet, req);
      req.requestType == Some(2) ==>
        r.Ok? && r.value.PrevMetaAck? && SameBits(r.value.version, t.version) && r.value.lockTime == t.lockTime
        && r.value.inputsCount as int == |t.inputs| % 0x1_0000_0000
        && r.value.outputsCount as int == |t.outputs| % 0x1_0000_0000
    ensures var i, r := Index(req), Answer(lib, psbt, testnet, req);
      req.requestType == Some(0) ==>
        (r.Ok? <==> i < |t.inputs|)
        && (r.Ok? ==>
              r.value.PrevInputAck? && Backwards(r.value.prevHash, t.inputs[i].previous.txid)
              && r.value.prevIndex == t.inputs[i].previous.vout && r.value.scriptSig == t.inputs[i].scriptSig
              && r.value.sequence == t.inputs[i].sequence)
    ensures var i, r := Index(req), Answer(lib, psbt, testnet, req);
      req.requestType == Some(1) ==>
        (r.Ok? <==> i < |t.outputs|)
        && (r.Ok? ==> r.value == PrevOutputAck(t.outputs[i].value, t.outputs[i].scriptPubkey))
  {
  }

  /** What is found under an id is carried by an input, is shown with that id, and is the first such. */
  lemma {:induction false} PrevIsFound(lib: Library, psbt: Psbt, hash: seq<u8>, from: nat)
    requires from <= |psbt.inputs|
    ensures var r := FindPrevFrom(lib, psbt, hash, from);
      && (r.Err? <==>
            forall k :: from <= k < |psbt.inputs| && psbt.inputs[k].nonWitnessUtxo.Some? ==>
              !Backwards(hash, lib.txid(psbt.inputs[k].nonWitnessUtxo.value)))
      && (r.Ok? ==>
            exists k :: from <= k < |psbt.inputs| && psbt.inputs[k].nonWitnessUtxo == Some(r.value)
              && Backwards(hash, lib.txid(r.value))
              && forall j :: from <= j < k && psbt.inputs[j].nonWitnessUtxo.Some? ==>
                   !Backwards(hash, lib.txid(psbt.inputs[j].nonWitnessUtxo.value)))
    decreases |psbt.inputs| - from
  {
    if from == |psbt.inputs| {
    } else {
      PrevIsFound(lib, psbt, hash, from + 1);
      var prev := psbt.inputs[from].nonWitnessUtxo;
      if prev.Some? { BackwardsIff(hash, lib.txid(prev.value)); }
    }
  }

  lemma BackwardsIff(a: seq<u8>, b: seq<u8>)
    ensures Backwards(a, b) <==> Reversed(b) == a
  {
  }

  /** Everything else is refused: an unknown id, the head of the transaction being signed, other types of request. */
  lemma OthersAreRefused(lib: Library, psbt: Psbt, testnet: bool, req: TxRequest)
    ensures (exists hash :: AboutPrev(req, hash) && FindPrev(lib, psbt, hash).Err?)
            || (req.requestType == Some(2) && AboutThis(req)) || req.requestType !in {Some(0), Some(1), Some(2)} ==>
      Answer(lib, psbt, testnet, req).Err?
  {
  }

  /** The requests that end the exchange: number 3, and one that leaves its type out. */
  lemma FinishingIff(req: TxRequest)
    ensures RequestKind(req) == TXFINISHED <==> req.requestType in {None, Some(3)}
  {
  }

  /** The opening message. */
  lemma HeaderIsWritten(psbt: Psbt, coinType: u32)
    ensures var h, t := Header(psbt, coinType), psbt.unsigned;
      h.coinName == (if coinType == 1 then "Testnet" else "Bitcoin")
      && SameBits(h.version, t.version) && h.lockTime == t.lockTime
      && h.inputsCount as int == |t.inputs| % 0x1_0000_0000 && h.outputsCount as int == |t.outputs| % 0x1_0000_0000
  {
  }
}
