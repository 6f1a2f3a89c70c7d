/** Recursive length prefix: the decoder of type-2 envelopes, a grammar for what it accepts, and the encoder. */
module Rlp {
  import opened Results
  import opened Words

  const WORD: nat := 0x1_0000_0000_0000_0000

  // ---- The grammar ----

  /** The header h of an item, as Appendix B of the Yellow Paper lays it out; lengths need not be minimal. */
  predicate HeaderFits(h: seq<u8>, isList: bool, item: seq<u8>) {
    var base := if isList then 0xC0 else 0x80;
    if h == [] then !isList && |item| == 1 && item[0] < 0x80
    else if |h| == 1 then |item| <= 55 && h[0] as nat == base + |item|
    else |h| <= 9 && h[0] as nat == base + 55 + (|h| - 1) && FromBigEndian(h[1..]) == |item|
  }

  predicate Encodes(span: seq<u8>, isList: bool, item: seq<u8>) {
    |item| <= |span| && span[|span| - |item|..] == item && HeaderFits(span[..|span| - |item|], isList, item)
  }

  predicate EncodesSome(span: seq<u8>, item: seq<u8>) { Encodes(span, false, item) || Encodes(span, true, item) }

  function Concat(parts: seq<seq<u8>>): seq<u8> {
    if parts == [] then [] else parts[0] + Concat(parts[1..])
  }

  /** The spans lie end to end over the whole payload, each the encoding of its item. */
  ghost predicate Tiles(payload: seq<u8>, spans: seq<seq<u8>>, items: seq<seq<u8>>) {
    |spans| == |items| && payload == Concat(spans) && forall i :: 0 <= i < |spans| ==> EncodesSome(spans[i], items[i])
  }

  // ---- The decoder ----

  /** A length prefix of n bytes, and the position behind it. */
  function ReadLen(buf: seq<u8>, pos: nat, n: nat): Result<(nat, nat)> {
    if pos + n > |buf| then Err else Ok((FromBigEndian(buf[pos..pos + n]) % WORD, pos + n))
  }

  /** Kind, payload length and payload position of the item at a position. */
  function ReadHead(buf: seq<u8>, pos: nat): Result<(bool, nat, nat)>
    requires pos < |buf|
  {
    var b := buf[pos] as nat;
    if b < 0x80 then Ok((false, 1, pos))
    else
      var isList := b >= 0xC0;
      var short := b - (if isList then 0xC0 else 0x80);
      if short <= 55 then Ok((isList, short, pos + 1))
      else
        var len := ReadLen(buf, pos + 1, short - 55);
        if len.Err? then Err else Ok((isList, len.value.0, len.value.1))
  }

  /** Kind, payload and end of the item at a position. */
  function Read(buf: seq<u8>, pos: nat): (r: Result<(bool, seq<u8>, nat)>)
    ensures r.Ok? ==> pos < r.value.2 <= |buf|
  {
    if pos >= |buf| || ReadHead(buf, pos).Err? then Err
    else
      var (isList, len, start) := ReadHead(buf, pos).value;
      if start + len > |buf| then Err else Ok((isList, buf[start..start + len], start + len))
  }

  function Items(payload: seq<u8>, pos: nat): Result<seq<seq<u8>>>
    requires pos <= |payload|
    decreases |payload| - pos
  {
    if pos == |payload| then Ok([])
    else
      var r := Read(payload, pos);
      if r.Err? then Err
      else
        var rest := Items(payload, r.value.2);
        if rest.Err? then Err else Ok([r.value.1] + rest.value)
  }

  function DecodeList(buf: seq<u8>): Result<seq<seq<u8>>> {
    var r := Read(buf, 0);
    if r.Err? || !r.value.0 then Err else Items(r.value.1, 0)
  }

  datatype Eip1559Tx = Eip1559Tx(chainId: nat, nonce: seq<u8>, maxPriorityFee: seq<u8>, maxFee: seq<u8>,
                                 gasLimit: seq<u8>, to: seq<u8>, value: seq<u8>, data: seq<u8>)

  function FromItems(items: seq<seq<u8>>): Eip1559Tx
    requires |items| >= 8
  {
    Eip1559Tx(FromBigEndian(items[0]) % WORD, items[1], items[2], items[3], items[4], items[5], items[6], items[7])
  }

  function DecodeEnvelope(envelope: seq<u8>): Result<Eip1559Tx> {
    if envelope == [] || envelope[0] != 2 then Err
    else
      var items := DecodeList(envelope[1..]);
      if items.Err? || |items.value| < 8 then Err else Ok(FromItems(items.value))
  }

  // ---- The decoder's loops ----

  /** Shifting a byte into a 64-bit accumulator. */
  lemma ShiftInValue(acc: nat, x: u8)
    ensures BitOr(acc * 256 % WORD, x as nat) == (acc * 256 + x as nat) % WORD
  {
    hide BitOr;
    var q, m := acc / 0x100_0000_0000_0000, acc % 0x100_0000_0000_0000;
    ModWord(acc * 256, q, m * 256);
    ModWord(acc * 256 + x as nat, q, m * 256 + x as nat);
    OrByte(m, x);
  }

  lemma OrByte(m: nat, x: u8)
    ensures BitOr(m * 256, x as nat) == m * 256 + x as nat
  {
    assert Exp2(8) == 256;
    BitOrDisjoint(x as nat, m, 8);
  }

  lemma ModWord(x: int, q: int, r: int)
    requires x == q * 0x1_0000_0000_0000_0000 + r && 0 <= r < 0x1_0000_0000_0000_0000
    ensures x % WORD == r
  {
  }

  lemma WrapStep(v: nat, x: u8)
    ensures ((v % WORD) * 256 + x as nat) % WORD == (v * 256 + x as nat) % WORD
  {
    assert v == v / WORD * WORD + v % WORD;
  }

  lemma FromBigEndianSnoc(b: seq<u8>, x: u8)
    ensures FromBigEndian(b + [x]) == 256 * FromBigEndian(b) + x as nat
  {
    assert (b + [x])[..|b|] == b;
  }

  /** The 64-bit accumulator holds the big-endian value, reduced modulo 2^64. */
  method BeToU64(bytes: seq<u8>) returns (v: u64)
    ensures v as nat == FromBigEndian(bytes) % WORD
  {
    v := 0;
    for i := 0 to |bytes|
      invariant v as nat == FromBigEndian(bytes[..i]) % WORD
    {
      assert bytes[..i + 1] == bytes[..i] + [bytes[i]];
      FromBigEndianSnoc(bytes[..i], bytes[i]);
      ShiftInValue(v as nat, bytes[i]);
      WrapStep(FromBigEndian(bytes[..i]), bytes[i]);
      v := BitOr(v as nat * 256 % WORD, bytes[i] as nat) as u64;
    }
    assert bytes[..|bytes|] == bytes;
  }

  /** Positions are 64-bit: the checked additions fail only where the bound check would. */
  method RlpReadLen(buf: seq<u8>, pos: nat, n: nat) returns (r: Result<nat>, next: nat)
    requires |buf| < WORD
    ensures match ReadLen(buf, pos, n)
            case Ok((len, end)) => r == Ok(len) && next == end
            case Err => r == Err
  {
    next := pos;
    if pos + n >= WORD { return Err, next; }
    var end := pos + n;
    if end > |buf| { return Err, next; }
    var len := BeToU64(buf[pos..end]);
    next := end;
    r := Ok(len as nat);
  }

  method RlpRead(buf: seq<u8>, pos: nat) returns (r: Result<(bool, seq<u8>)>, next: nat)
    requires |buf| < WORD
    ensures match Read(buf, pos)
            case Ok((isList, item, end)) => r == Ok((isList, item)) && next == end && pos < end <= |buf|
            case Err => r == Err
  {
    next := pos;
    if pos >= |buf| { return Err, next; }
    var b := buf[pos];
    next := pos + 1;
    assert buf[pos..pos + 1] == [b];
    if b <= 0x7F { return Ok((false, [b])), next; }
    var isList, len;
    if b <= 0xB7 {
      isList, len := false, Ok((b - 0x80) as nat);
    } else if b <= 0xBF {
      isList := false;
      len, next := RlpReadLen(buf, next, (b - 0xB7) as nat);
    } else if b <= 0xF7 {
      isList, len := true, Ok((b - 0xC0) as nat);
    } else {
      isList := true;
      len, next := RlpReadLen(buf, next, (b - 0xF7) as nat);
    }
    if len.Err? { return Err, next; }
    if next + len.value >= WORD { return Err, next; }
    var end := next + len.value;
    if end > |buf| { return Err, next; }
    r := Ok((isList, buf[next..end]));
    next := end;
  }

  method RlpDecodeList(buf: seq<u8>) returns (r: Result<seq<seq<u8>>>)
    requires |buf| < WORD
    ensures r == DecodeList(buf)
  {
    var first, _ := RlpRead(buf, 0);
    if first.Err? || !first.value.0 { return Err; }
    var payload := first.value.1;
    var items: seq<seq<u8>> := [];
    var pos := 0;
    ghost var all := Items(payload, 0);
    assert all.Ok? ==> all.value == [] + all.value;
    while pos < |payload|
      invariant pos <= |payload|
      invariant all
        == (if Items(payload, pos).Err? then Err else Ok(items + Items(payload, pos).value))
    {
      ghost var before := Items(payload, pos);
      var item, next := RlpRead(payload, pos);
      if item.Err? { return Err; }
      if before.Ok? { assert items + before.value == items + [item.value.1] + Items(payload, next).value; }
      items := items + [item.value.1];
      pos := next;
    }
    assert items + [] == items;
    r := Ok(items);
  }

  method DecodeEip1559Envelope(envelope: seq<u8>) returns (r: Result<Eip1559Tx>)
    requires |envelope| <= WORD
    ensures r == DecodeEnvelope(envelope)
  {
    if envelope == [] || envelope[0] != 2 { return Err; }
    var items := RlpDecodeList(envelope[1..]);
    if items.Err? || |items.value| < 8 { return Err; }
    var chainId := BeToU64(items.value[0]);
    r := Ok(Eip1559Tx(chainId as nat, items.value[1], items.value[2], items.value[3], items.value[4], items.value[5],
                      items.value[6], items.value[7]));
  }

  // ---- The decoder accepts exactly the grammar ----

  lemma LengthFits(b: seq<u8>)
    requires |b| <= 8
    ensures FromBigEndian(b) < WORD
  {
    BigEndianOf(b);
    Exp256Monotone(|b|, 8);
    assert Exp256(8) == WORD;
  }

  lemma {:induction false} Exp256Monotone(m: nat, n: nat)
    requires m <= n
    ensures Exp256(m) <= Exp256(n)
  {
    if m == n {
    } else {
      Exp256Monotone(m, n - 1);
    }
  }

  /** The header laid out in the buffer from pos to start. */
  predicate GoodHead(buf: seq<u8>, pos: nat, isList: bool, len: nat, start: nat)
    requires pos <= start <= |buf|
  {
    var base := if isList then 0xC0 else 0x80;
    if start == pos then !isList && len == 1 && pos < |buf| && buf[pos] < 0x80
    else if start == pos + 1 then len <= 55 && buf[pos] as nat == base + len
    else start <= pos + 9 && buf[pos] as nat == base + 55 + (start - pos - 1) && FromBigEndian(buf[pos + 1..start]) == len
  }

  lemma HeadIff(buf: seq<u8>, pos: nat, isList: bool, len: nat, start: nat)
    requires pos < |buf|
    ensures ReadHead(buf, pos) == Ok((isList, len, start))
      <==> pos <= start <= |buf| && GoodHead(buf, pos, isList, len, start)
  {
    if pos + 1 < start <= |buf| && start <= pos + 9 { LengthFits(buf[pos + 1..start]); }
  }

  lemma HeaderInBuffer(buf: seq<u8>, pos: nat, isList: bool, len: nat, start: nat)
    requires pos <= start && start + len <= |buf|
    ensures HeaderFits(buf[pos..start], isList, buf[start..start + len]) <==> GoodHead(buf, pos, isList, len, start)
  {
    if start > pos + 1 { assert buf[pos..start][1..] == buf[pos + 1..start]; }
  }

  lemma EncodedAt(buf: seq<u8>, pos: nat, isList: bool, len: nat, start: nat)
    requires pos <= start && start + len <= |buf|
    ensures Encodes(buf[pos..start + len], isList, buf[start..start + len]) <==> GoodHead(buf, pos, isList, len, start)
  {
    HeaderInBuffer(buf, pos, isList, len, start);
    var span := buf[pos..start + len];
    assert span[start - pos..] == buf[start..start + len] && span[..start - pos] == buf[pos..start];
  }

  lemma ReadIsEncoding(buf: seq<u8>, pos: nat)
    requires Read(buf, pos).Ok?
    ensures var (isList, item, end) := Read(buf, pos).value; Encodes(buf[pos..end], isList, item)
  {
    var (isList, len, start) := ReadHead(buf, pos).value;
    HeadIff(buf, pos, isList, len, start);
    EncodedAt(buf, pos, isList, len, start);
  }

  lemma EncodingIsRead(buf: seq<u8>, pos: nat, end: nat, isList: bool, item: seq<u8>)
    requires pos <= end <= |buf| && Encodes(buf[pos..end], isList, item)
    ensures Read(buf, pos) == Ok((isList, item, end))
  {
    var start := end - |item|;
    assert item == buf[start..end];
    assert pos < end;
    EncodedAt(buf, pos, isList, |item|, start);
    HeadIff(buf, pos, isList, |item|, start);
  }

  /** Reading succeeds with an item exactly when the bytes up to the end are an encoding of that item. */
  lemma ReadIff(buf: seq<u8>, pos: nat, end: nat, isList: bool, item: seq<u8>)
    ensures Read(buf, pos) == Ok((isList, item, end))
      <==> pos <= end <= |buf| && Encodes(buf[pos..end], isList, item)
  {
    if Read(buf, pos) == Ok((isList, item, end)) {
      ReadIsEncoding(buf, pos);
    } else if pos <= end <= |buf| && Encodes(buf[pos..end], isList, item) {
      EncodingIsRead(buf, pos, end, isList, item);
    }
  }

  lemma TilesCons(span: seq<u8>, item: seq<u8>, rest: seq<u8>, spans: seq<seq<u8>>, items: seq<seq<u8>>)
    requires EncodesSome(span, item) && Tiles(rest, spans, items)
    ensures Tiles(span + rest, [span] + spans, [item] + items)
  {
    assert ([span] + spans)[1..] == spans;
  }

  /** The items of an accepted list tile its payload. */
  lemma {:induction false} ItemsTile(payload: seq<u8>, pos: nat) returns (spans: seq<seq<u8>>)
    requires pos <= |payload| && Items(payload, pos).Ok?
    ensures Tiles(payload[pos..], spans, Items(payload, pos).value)
    decreases |payload| - pos
  {
    hide Encodes, Read;
    if pos == |payload| {
      spans := [];
      assert payload[pos..] == [];
    } else {
      ReadIsEncoding(payload, pos);
      var (_, item, end) := Read(payload, pos).value;
      var rest := ItemsTile(payload, end);
      TilesCons(payload[pos..end], item, payload[end..], rest, Items(payload, end).value);
      spans := [payload[pos..end]] + rest;
      assert payload[pos..] == payload[pos..end] + payload[end..];
    }
  }

  lemma {:induction false} TilesAreItems(payload: seq<u8>, pos: nat, spans: seq<seq<u8>>, items: seq<seq<u8>>)
    requires pos <= |payload| && Tiles(payload[pos..], spans, items)
    ensures Items(payload, pos) == Ok(items)
    decreases |spans|
  {
    hide Encodes, Read;
    if spans == [] {
    } else {
      var end := pos + |spans[0]|;
      assert payload[pos..] == spans[0] + Concat(spans[1..]);
      assert payload[pos..end] == spans[0] && payload[end..] == Concat(spans[1..]);
      assert EncodesSome(spans[0], items[0]);
      var isList := !Encodes(spans[0], false, items[0]);
      EncodingIsRead(payload, pos, end, isList, items[0]);
      TilesAreItems(payload, end, spans[1..], items[1..]);
      assert items == [items[0]] + items[1..];
    }
  }

  /** A byte string opens with a list, of these items, that fills some first part of it. */
  ghost predicate IsListOf(buf: seq<u8>, end: nat, spans: seq<seq<u8>>, items: seq<seq<u8>>) {
    end <= |buf| && Encodes(buf[..end], true, Concat(spans)) && Tiles(Concat(spans), spans, items)
  }

  lemma ListIsDecoded(buf: seq<u8>, end: nat, spans: seq<seq<u8>>, items: seq<seq<u8>>)
    requires IsListOf(buf, end, spans, items)
    ensures DecodeList(buf) == Ok(items)
  {
    EncodingIsRead(buf, 0, end, true, Concat(spans));
    assert Concat(spans)[0..] == Concat(spans);
    TilesAreItems(Concat(spans), 0, spans, items);
  }

  lemma DecodedIsList(buf: seq<u8>) returns (end: nat, spans: seq<seq<u8>>)
    requires DecodeList(buf).Ok?
    ensures IsListOf(buf, end, spans, DecodeList(buf).value)
  {
    ReadIsEncoding(buf, 0);
    var (isList, payload, e) := Read(buf, 0).value;
    end := e;
    spans := ItemsTile(payload, 0);
    assert payload[0..] == payload;
  }

  /** A list is decoded to these items exactly when spans encoding them tile the payload of a list that the bytes
      begin with; what follows the list does not matter. */
  lemma DecodeListIff(buf: seq<u8>, items: seq<seq<u8>>)
    ensures DecodeList(buf) == Ok(items) <==> exists end, spans :: IsListOf(buf, end, spans, items)
  {
    if DecodeList(buf) == Ok(items) {
      var end, spans := DecodedIsList(buf);
    }
    forall end, spans | IsListOf(buf, end, spans, items) ensures DecodeList(buf) == Ok(items) {
      ListIsDecoded(buf, end, spans, items);
    }
  }

  /** The envelopes accepted, and the transaction each yields. */
  lemma EnvelopeIff(envelope: seq<u8>, tx: Eip1559Tx)
    ensures DecodeEnvelope(envelope) == Ok(tx)
      <==> envelope != [] && envelope[0] == 2
           && exists end, spans, items ::
                IsListOf(envelope[1..], end, spans, items) && |items| >= 8
                && tx == Eip1559Tx(FromBigEndian(items[0]) % 0x1_0000_0000_0000_0000, items[1], items[2], items[3],
                                   items[4], items[5], items[6], items[7])
  {
    if envelope != [] && envelope[0] == 2 {
      var body := envelope[1..];
      if DecodeEnvelope(envelope) == Ok(tx) {
        var end, spans := DecodedIsList(body);
        assert IsListOf(body, end, spans, DecodeList(body).value);
      }
      forall end, spans, items | IsListOf(body, end, spans, items) ensures DecodeList(body) == Ok(items) {
        ListIsDecoded(body, end, spans, items);
      }
    }
  }

  lemma ShortEncodes(isList: bool, data: seq<u8>, head: u8)
    requires 2 <= |data| <= 55 && head as nat == (if isList then 0xC0 else 0x80) + |data|
    ensures Encodes([head] + data, isList, data)
  {
    assert ([head] + data)[1..] == data && ([head] + data)[..1] == [head];
  }

  lemma ConcatTwo(a: seq<u8>, b: seq<u8>)
    ensures Concat([a, b]) == a + b
  {
    assert [a, b][1..] == [b] && [b][1..] == [] && Concat([b]) == b + Concat([]);
  }

  /** The list of "cat" and "dog", as Ethereum's documentation writes it out. */
  lemma CatAndDog()
    ensures DecodeList([0xC8, 0x83, 0x63, 0x61, 0x74, 0x83, 0x64, 0x6F, 0x67])
      == Ok([[0x63, 0x61, 0x74], [0x64, 0x6F, 0x67]])
  {
    hide Encodes, DecodeList, Concat;
    var cat, dog: seq<u8> := [0x63, 0x61, 0x74], [0x64, 0x6F, 0x67];
    var spans, items := [[0x83] + cat, [0x83] + dog], [cat, dog];
    ShortEncodes(false, cat, 0x83);
    ShortEncodes(false, dog, 0x83);
    ConcatTwo(spans[0], spans[1]);
    var payload := spans[0] + spans[1];
    ShortEncodes(true, payload, 0xC8);
    assert Tiles(payload, spans, items);
    var buf := [0xC8] + payload;
    assert buf[..9] == buf;
    ListIsDecoded(buf, 9, spans, items);
    assert buf == [0xC8, 0x83, 0x63, 0x61, 0x74, 0x83, 0x64, 0x6F, 0x67];
  }

  // ---- The encoder ----

  function MinimalBytes(n: nat): seq<u8> {
    if n == 0 then [] else MinimalBytes(n / 256) + [(n % 256) as u8]
  }

  method MinimalBe(n: nat) returns (bytes: seq<u8>)
    ensures bytes == MinimalBytes(n)
  {
    var rest := n;
    var low: seq<u8> := [];
    assert MinimalBytes(n) + Reversed(low) == MinimalBytes(n);
    while rest > 0
      invariant MinimalBytes(n) == MinimalBytes(rest) + Reversed(low)
    {
      ghost var grown := low + [(rest % 256) as u8];
      ReversedSnoc(low, (rest % 256) as u8);
      assert MinimalBytes(rest) + Reversed(low) == MinimalBytes(rest / 256) + Reversed(grown);
      low := low + [(rest % 256) as u8];
      rest := rest / 256;
    }
    assert MinimalBytes(0) + Reversed(low) == Reversed(low);
    bytes := Reversed(low);
  }

  lemma ReversedSnoc(s: seq<u8>, x: u8)
    ensures Reversed(s + [x]) == [x] + Reversed(s)
  {
  }

  lemma {:induction false} MinimalValue(n: nat, k: nat)
    requires n < Exp256(k)
    ensures FromBigEndian(MinimalBytes(n)) == n && |MinimalBytes(n)| <= k
    ensures n > 0 ==> |MinimalBytes(n)| > 0
    decreases k
  {
    if n == 0 {
    } else {
      MinimalValue(n / 256, k - 1);
      FromBigEndianSnoc(MinimalBytes(n / 256), (n % 256) as u8);
    }
  }

  function Prefix(base: nat, len: nat): (h: seq<u8>)
    requires base == 0x80 || base == 0xC0
    requires len < WORD
  {
    MinimalFits(len);
    if len < 56 then [(base + len) as u8] else [(base + 55 + |MinimalBytes(len)|) as u8] + MinimalBytes(len)
  }

  lemma MinimalFits(len: nat)
    requires len < WORD
    ensures |MinimalBytes(len)| <= 8 && FromBigEndian(MinimalBytes(len)) == len && (len > 0 ==> |MinimalBytes(len)| > 0)
  {
    assert Exp256(8) == WORD;
    MinimalValue(len, 8);
  }

  function RlpBytes(data: seq<u8>): seq<u8>
    requires |data| < WORD
  {
    if |data| == 1 && data[0] < 0x80 then data else Prefix(0x80, |data|) + data
  }

  function RlpList(items: seq<seq<u8>>): seq<u8>
    requires |Concat(items)| < WORD
  {
    Prefix(0xC0, |Concat(items)|) + Concat(items)
  }

  lemma PrefixFits(isList: bool, data: seq<u8>)
    requires |data| < WORD
    ensures var h := Prefix(if isList then 0xC0 else 0x80, |data|); Encodes(h + data, isList, data)
  {
    var h := Prefix(if isList then 0xC0 else 0x80, |data|);
    MinimalFits(|data|);
    assert (h + data)[|h|..] == data && (h + data)[..|h|] == h;
    if |data| >= 56 { assert h[1..] == MinimalBytes(|data|); }
  }

  lemma BytesEncode(data: seq<u8>)
    requires |data| < WORD
    ensures Encodes(RlpBytes(data), false, data)
  {
    if !(|data| == 1 && data[0] < 0x80) { PrefixFits(false, data); }
  }

  // ---- Round trip ----

  function Fields(tx: Eip1559Tx): (f: seq<seq<u8>>)
    ensures |f| == 8
  {
    [MinimalBytes(tx.chainId), tx.nonce, tx.maxPriorityFee, tx.maxFee, tx.gasLimit, tx.to, tx.value, tx.data]
  }

  ghost predicate Fits(parts: seq<seq<u8>>) { forall i :: 0 <= i < |parts| ==> |parts[i]| < WORD }

  /** The spans of a transaction's nine items; the access list is any list at all. */
  ghost function Spans(fields: seq<seq<u8>>, accessList: seq<seq<u8>>): seq<seq<u8>>
    requires Fits(fields) && |Concat(accessList)| < WORD
  {
    seq(|fields|, i requires 0 <= i < |fields| => RlpBytes(fields[i])) + [RlpList(accessList)]
  }

  lemma SpansTile(fields: seq<seq<u8>>, accessList: seq<seq<u8>>)
    requires Fits(fields) && |Concat(accessList)| < WORD
    ensures Tiles(Concat(Spans(fields, accessList)), Spans(fields, accessList), fields + [Concat(accessList)])
  {
    var spans, items := Spans(fields, accessList), fields + [Concat(accessList)];
    PrefixFits(true, Concat(accessList));
    forall i | 0 <= i < |spans| ensures EncodesSome(spans[i], items[i]) {
      if i < |fields| { BytesEncode(fields[i]); }
    }
  }

  lemma ListRoundTrip(spans: seq<seq<u8>>, items: seq<seq<u8>>, trailing: seq<u8>)
    requires |Concat(spans)| < WORD && Tiles(Concat(spans), spans, items)
    ensures DecodeList(RlpList(spans) + trailing) == Ok(items)
  {
    PrefixFits(true, Concat(spans));
    var list := RlpList(spans);
    assert (list + trailing)[..|list|] == list;
    ListIsDecoded(list + trailing, |list|, spans, items);
  }

  lemma EnvelopeOfList(body: seq<u8>, items: seq<seq<u8>>)
    requires DecodeList(body) == Ok(items) && |items| >= 8
    ensures DecodeEnvelope([2] + body) == Ok(FromItems(items))
  {
    assert ([2] + body)[1..] == body;
  }

  lemma FieldsReadBack(tx: Eip1559Tx, more: seq<seq<u8>>)
    requires tx.chainId < WORD
    ensures FromItems(Fields(tx) + more) == tx
  {
    MinimalFits(tx.chainId);
  }

  /** Decoding the encoding of any transaction gives the transaction back, whatever follows it. */
  lemma EnvelopeRoundTrip(tx: Eip1559Tx, accessList: seq<seq<u8>>, trailing: seq<u8>)
    requires tx.chainId < WORD && Fits(Fields(tx)) && |Concat(accessList)| < WORD
    requires |Concat(Spans(Fields(tx), accessList))| < WORD
    ensures DecodeEnvelope([2] + RlpList(Spans(Fields(tx), accessList)) + trailing) == Ok(tx)
  {
    hide DecodeList, DecodeEnvelope, RlpList, Spans, Fields, FromItems, Tiles, Concat;
    var spans := Spans(Fields(tx), accessList);
    SpansTile(Fields(tx), accessList);
    ListRoundTrip(spans, Fields(tx) + [Concat(accessList)], trailing);
    FieldsReadBack(tx, [Concat(accessList)]);
    EnvelopeOfList(RlpList(spans) + trailing, Fields(tx) + [Concat(accessList)]);
    assert [2] + RlpList(spans) + trailing == [2] + (RlpList(spans) + trailing);
  }

  // ---- The chain id ----

  lemma {:induction false} BigEndianConcat(a: seq<u8>, b: seq<u8>)
    ensures FromBigEndian(a + b) == FromBigEndian(a) * Exp256(|b|) + FromBigEndian(b)
    decreases |b|
  {
    if b == [] {
      assert a + b == a;
    } else {
      var n := |b| - 1;
      BigEndianConcat(a, b[..n]);
      assert a + b == (a + b[..n]) + [b[n]];
      FromBigEndianSnoc(a + b[..n], b[n]);
      Associate(FromBigEndian(a), 256, Exp256(n));
      Associate(256, FromBigEndian(a), Exp256(n));
    }
  }

  /** Only the last eight bytes of a chain id count: a wider one is accepted and reduced. */
  lemma WideChainIdIsReduced(items: seq<seq<u8>>, high: seq<u8>, low: seq<u8>)
    requires |items| >= 8 && items[0] == high + low && |low| == 8
    ensures FromItems(items).chainId == FromBigEndian(low)
    ensures FromItems(items).chainId == FromBigEndian(items[0]) <==> FromBigEndian(high) == 0
  {
    BigEndianConcat(high, low);
    LengthFits(low);
    Reduced(FromBigEndian(high), FromBigEndian(low), Exp256(8));
    assert Exp256(8) == WORD;
  }

  /** Whatever stands in front of the last eight bytes of its chain id, an envelope decodes as if it were not there. */
  lemma EnvelopeReducesChainId(tx: Eip1559Tx, high: seq<u8>, low: seq<u8>, accessList: seq<seq<u8>>)
    requires |low| == 8 && tx.chainId == FromBigEndian(low)
    requires Fits(Fields(tx)[0 := high + low]) && |Concat(accessList)| < WORD
    requires |Concat(Spans(Fields(tx)[0 := high + low], accessList))| < WORD
    ensures DecodeEnvelope([2] + RlpList(Spans(Fields(tx)[0 := high + low], accessList))) == Ok(tx)
  {
    hide DecodeList, DecodeEnvelope, RlpList, Spans, Tiles, Concat;
    var fields := Fields(tx)[0 := high + low];
    var items := fields + [Concat(accessList)];
    var list := RlpList(Spans(fields, accessList));
    SpansTile(fields, accessList);
    ListRoundTrip(Spans(fields, accessList), items, []);
    assert list + [] == list;
    EnvelopeOfList(list, items);
    WideChainIdIsReduced(items, high, low);
  }

  /** 2^64 + 1, in nine bytes, is read as chain 1. */
  lemma NineByteChainId(items: seq<seq<u8>>)
    requires |items| >= 8 && items[0] == [1] + [0, 0, 0, 0, 0, 0, 0, 1]
    ensures FromItems(items).chainId == 1 && FromBigEndian(items[0]) == WORD + 1
  {
    var low: seq<u8> := [0, 0, 0, 0, 0, 0, 0, 1];
    WideChainIdIsReduced(items, [1], low);
    BigEndianSmall(1, 8);
    assert low == BigEndian(1, 8);
    assert Exp256(8) == WORD;
    BigEndianRoundTrip(1, 8);
    BigEndianConcat([1], low);
    FromBigEndianSnoc([], 1);
    assert [] + [1] == [1];
  }

  lemma Reduced(h: nat, l: nat, w: nat)
    requires l < w == WORD
    ensures (h * w + l) % WORD == l && (h * w + l == l <==> h == 0)
  {
  }
}
