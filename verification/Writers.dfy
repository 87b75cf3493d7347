/** The encoders: bytes go to a stream, and lengths are added up on the way. */
module Writers {
  import opened Codec
  import opened Messages
  import opened Frames

  class Writer {
    var out: Bytes

    constructor ()
      ensures out == []
    {
      out := [];
    }

    method Write(bytes: Bytes) returns (len: nat)
      modifies this
      ensures out == old(out) + bytes && len == |bytes|
    {
      out := out + bytes;
      len := |bytes|;
    }
  }

  /** The previous hash and the uncles. */
  method WriteLinks(prev: Bytes32, uncles: seq<Bytes32>, w: Writer) returns (len: nat)
    modifies w
    ensures w.out == old(w.out) + (prev + EncHashes(uncles)) && len == |prev + EncHashes(uncles)|
  {
    ghost var before := w.out;
    len := w.Write(prev);
    var n := w.Write(EncHashes(uncles));
    len := len + n;
    Regroup2(before, prev, EncHashes(uncles));
  }

  lemma Regroup2(o: Bytes, a: Bytes, b: Bytes)
    ensures o + a + b == o + (a + b) && |a + b| == |a| + |b|
  {
  }

  lemma Regroup3(o: Bytes, a: Bytes, b: Bytes, c: Bytes)
    ensures o + a + b + c == o + (a + (b + c)) && |a + (b + c)| == |a| + |b| + |c|
  {
  }

  lemma Regroup4(o: Bytes, a: Bytes, b: Bytes, c: Bytes, d: Bytes)
    ensures o + a + b + c + d == o + (a + (b + (c + d)))
    ensures |a + (b + (c + d))| == |a| + |b| + |c| + |d|
  {
  }

  /** A compressed public key, always 33 bytes; its writer reports no count, so the callers add 33. */
  method WriteKey(key: Bytes33, w: Writer)
    modifies w
    ensures w.out == old(w.out) + key
  {
    var _ := w.Write(key);
  }

  method WriteBitsTime(bits: Word32, time: Word32, w: Writer) returns (len: nat)
    modifies w
    ensures w.out == old(w.out) + (EncU32(bits) + EncU32(time)) && len == |EncU32(bits) + EncU32(time)|
  {
    len := w.Write(EncU32(bits));
    var n := w.Write(EncU32(time));
    len := len + n;
  }

  /** Merkle root, bitcoin header, target and time. */
  method WriteRoot(h: WireHeader, w: Writer) returns (len: nat)
    modifies w
    ensures w.out == old(w.out) + EncRoot(h) && len == |EncRoot(h)|
  {
    ghost var before := w.out;
    len := w.Write(h.merkleRoot);
    var n := w.Write(h.bitcoinHeader);
    len := len + n;
    n := WriteBitsTime(h.bits, h.time, w);
    len := len + n;
    Regroup3(before, h.merkleRoot, h.bitcoinHeader, EncU32(h.bits) + EncU32(h.time));
  }

  /** `ShareHeader::consensus_encode`. */
  method WriteHeader(h: WireHeader, w: Writer) returns (len: nat)
    modifies w
    ensures w.out == old(w.out) + EncHeader(h) && len == |EncHeader(h)|
  {
    ghost var before := w.out;
    len := WriteLinks(h.prevShareBlockhash, h.uncles, w);
    WriteKey(h.minerPubkey, w);
    len := len + 33;
    var n := WriteRoot(h, w);
    len := len + n;
    Regroup3(before, h.prevShareBlockhash + EncHashes(h.uncles), h.minerPubkey, EncRoot(h));
  }

  lemma {:induction false} WriteManyPush<T>(enc: T -> Bytes, xs: seq<T>, x: T)
    ensures WriteMany(enc, xs + [x]) == WriteMany(enc, xs) + enc(x)
  {
    if xs == [] {
      assert xs + [x] == [x];
      assert WriteMany(enc, [x]) == enc(x) + WriteMany(enc, [x][1..]);
    } else {
      assert (xs + [x])[1..] == xs[1..] + [x];
      WriteManyPush(enc, xs[1..], x);
    }
  }

  /** One turn of the header-list loop: the header, then a zero byte. */
  method WriteListed(h: WireHeader, w: Writer) returns (len: nat)
    modifies w
    ensures w.out == old(w.out) + EncListed(h) && len == |EncListed(h)|
  {
    len := WriteHeader(h, w);
    var n := w.Write([0]);
    len := len + n;
  }

  /** The loop of the header-list encoder. */
  method WriteAllListed(headers: seq<WireHeader>, w: Writer) returns (len: nat)
    modifies w
    ensures w.out == old(w.out) + AllListed(headers, |headers|) && len == |AllListed(headers, |headers|)|
  {
    len := 0;
    ghost var before := w.out;
    for i := 0 to |headers|
      invariant w.out == before + AllListed(headers, i) && len == |AllListed(headers, i)|
    {
      ghost var written := AllListed(headers, i);
      var n := WriteListed(headers[i], w);
      len := len + n;
      Regroup2(before, written, EncListed(headers[i]));
      ListedPush(headers, i);
    }
  }

  lemma ListedPush(headers: seq<WireHeader>, i: nat)
    requires i < |headers|
    ensures AllListed(headers, i + 1) == AllListed(headers, i) + EncListed(headers[i])
  {
  }

  /** The header-list encoder: a count, then each header followed by a zero byte. */
  method WriteHeaders(headers: seq<WireHeader>, w: Writer) returns (len: nat)
    modifies w
    ensures w.out == old(w.out) + EncVec(EncListed, headers) && len == |EncVec(EncListed, headers)|
  {
    ghost var before := w.out;
    len := w.Write(EncCount(|headers|));
    var n := WriteAllListed(headers, w);
    len := len + n;
    Regroup2(before, EncCount(|headers|), AllListed(headers, |headers|));
    HeaderListBytes(headers);
  }

  lemma HeaderListBytes(headers: seq<WireHeader>)
    ensures EncVec(EncListed, headers) == EncCount(|headers|) + AllListed(headers, |headers|)
  {
    WriteManyBack(EncListed, headers, |headers|);
    assert headers[..|headers|] == headers;
  }

  /** The first `n` items, written one after another. */
  function WriteFirst<T>(enc: T -> Bytes, xs: seq<T>, n: nat): Bytes
    requires n <= |xs|
  {
    if n == 0 then [] else WriteFirst(enc, xs, n - 1) + enc(xs[n - 1])
  }

  lemma {:induction false} WriteManyBack<T>(enc: T -> Bytes, xs: seq<T>, n: nat)
    requires n <= |xs|
    ensures WriteFirst(enc, xs, n) == WriteMany(enc, xs[..n])
  {
    if n == 0 {
    } else {
      WriteManyBack(enc, xs, n - 1);
      WriteManyPush(enc, xs[..n - 1], xs[n - 1]);
      assert xs[..n] == xs[..n - 1] + [xs[n - 1]];
    }
  }

  function AllListed(headers: seq<WireHeader>, n: nat): Bytes
    requires n <= |headers|
  {
    WriteFirst(EncListed, headers, n)
  }

  // ----- lists of foreign items, counted and looped over by hand -----

  /** The loop over the items; each writer reports its own length. */
  method WriteItems<T>(enc: T -> Bytes, xs: seq<T>, w: Writer) returns (len: nat)
    modifies w
    ensures w.out == old(w.out) + WriteFirst(enc, xs, |xs|) && len == |WriteFirst(enc, xs, |xs|)|
  {
    len := 0;
    ghost var before := w.out;
    for i := 0 to |xs|
      invariant w.out == before + WriteFirst(enc, xs, i) && len == |WriteFirst(enc, xs, i)|
    {
      ghost var written := WriteFirst(enc, xs, i);
      var n := w.Write(enc(xs[i]));
      len := len + n;
      Regroup2(before, written, enc(xs[i]));
    }
  }

  /** A count, then the items. */
  method WriteVec<T>(enc: T -> Bytes, xs: seq<T>, w: Writer) returns (len: nat)
    modifies w
    ensures w.out == old(w.out) + EncVec(enc, xs) && len == |EncVec(enc, xs)|
  {
    ghost var before := w.out;
    len := w.Write(EncCount(|xs|));
    var n := WriteItems(enc, xs, w);
    len := len + n;
    WriteManyBack(enc, xs, |xs|);
    assert xs[..|xs|] == xs;
    Regroup2(before, EncCount(|xs|), WriteMany(enc, xs));
  }

  // ----- messages -----

  /** `ShareBlock::consensus_encode`; the bitcoin transactions go through the foreign vector encoder. */
  method WriteBlock<T>(c: TxCodec<T>, b: WireBlock<T>, w: Writer) returns (len: nat)
    modifies w
    ensures w.out == old(w.out) + EncBlock(c, b) && len == |EncBlock(c, b)|
  {
    ghost var before := w.out;
    len := WriteHeader(b.header, w);
    var n := WriteVec(c.enc, b.transactions, w);
    len := len + n;
    n := w.Write(EncVec(c.enc, b.bitcoinTransactions));
    len := len + n;
    Regroup3(before, EncHeader(b.header), EncVec(c.enc, b.transactions), EncVec(c.enc, b.bitcoinTransactions));
  }

  /** `InventoryMessage::consensus_encode`: a tag, then block hashes by the foreign vector encoder or ids by our own. */
  method WriteInventory(i: Inventory, w: Writer) returns (len: nat)
    modifies w
    ensures w.out == old(w.out) + EncInventory(i) && len == |EncInventory(i)|
  {
    ghost var before := w.out;
    match i
    case BlockHashes(hashes) =>
      len := w.Write([0]);
      var n := w.Write(EncHashes(hashes));
      len := len + n;
      Regroup2(before, [0], EncHashes(hashes));
    case TransactionHashes(txids) =>
      len := w.Write([1]);
      var n := WriteVec(EncHash, txids, w);
      len := len + n;
      Regroup2(before, [1], EncHashes(txids));
  }

  /** `GetData::consensus_encode`. */
  method WriteWanted(wanted: Wanted, w: Writer) returns (len: nat)
    modifies w
    ensures w.out == old(w.out) + EncWanted(wanted) && len == |EncWanted(wanted)|
  {
    ghost var before := w.out;
    match wanted
    case Block(hash) =>
      len := w.Write([0]);
      var n := w.Write(hash);
      len := len + n;
      Regroup2(before, [0], hash);
    case Tx(txid) =>
      len := w.Write([1]);
      var n := w.Write(txid);
      len := len + n;
      Regroup2(before, [1], txid);
  }

  /** The part of a message behind its discriminant; only the transaction is left to the foreign codec. */
  method WriteBody<T>(c: TxCodec<T>, m: Message<T>, w: Writer) returns (len: nat)
    modifies w
    ensures w.out == old(w.out) + EncBody(c, m) && len == |EncBody(c, m)|
  {
    match m {
      case InventoryMessage(i) => len := WriteInventory(i, w);
      case NotFound => len := 0;
      case GetShareHeaders(locator, stop) => len := WriteLocator(locator, stop, w);
      case GetShareBlocks(locator, stop) => len := WriteLocator(locator, stop, w);
      case ShareHeaders(headers) => len := WriteHeaders(headers, w);
      case ShareBlockMessage(block) => len := WriteBlock(c, block, w);
      case GetData(wanted) => len := WriteWanted(wanted, w);
      case TransactionMessage(tx) => len := w.Write(c.enc(tx));
    }
  }

  method WriteLocator(locator: seq<Bytes32>, stop: Bytes32, w: Writer) returns (len: nat)
    modifies w
    ensures w.out == old(w.out) + (EncHashes(locator) + stop) && len == |EncHashes(locator) + stop|
  {
    ghost var before := w.out;
    len := w.Write(EncHashes(locator));
    var n := w.Write(stop);
    len := len + n;
    Regroup2(before, EncHashes(locator), stop);
  }

  /** `Message::consensus_encode`: the returned length is the number of bytes written. */
  method WriteMessage<T>(c: TxCodec<T>, m: Message<T>, w: Writer) returns (len: nat)
    modifies w
    ensures w.out == old(w.out) + EncMessage(c, m) && len == |EncMessage(c, m)|
  {
    ghost var before := w.out;
    len := w.Write([Discriminant(m)]);
    var n := WriteBody(c, m, w);
    len := len + n;
    Regroup2(before, [Discriminant(m)], EncBody(c, m));
  }

  /** `RawMessage::consensus_encode`. */
  method WriteRaw<T>(c: TxCodec<T>, raw: RawMessage<T>, w: Writer) returns (len: nat)
    modifies w
    ensures w.out == old(w.out) + EncRaw(c, raw) && len == |EncRaw(c, raw)|
  {
    ghost var before := w.out;
    len := w.Write(raw.magic);
    var n := w.Write(EncU32(raw.payloadLen));
    len := len + n;
    n := w.Write(raw.checksum);
    len := len + n;
    n := WriteMessage(c, raw.payload, w);
    len := len + n;
    RegroupFrame(before, raw.magic, EncU32(raw.payloadLen), raw.checksum, EncMessage(c, raw.payload));
  }

  lemma RegroupFrame(o: Bytes, a: Bytes, b: Bytes, c: Bytes, d: Bytes)
    ensures o + a + b + c + d == o + (a + b + c + d)
  {
  }

  /** `RawMessage::new`: the payload length field is the length the encoder reports. */
  method BuildRawMessage<T>(c: TxCodec<T>, sum: Checksum, magic: Bytes4, m: Message<T>) returns (raw: RawMessage<T>)
    requires |EncMessage(c, m)| < 0x1_0000_0000
    ensures raw == NewRawMessage(c, sum, magic, m)
  {
    var engine := new Writer();
    var payloadLen := WriteMessage(c, m, engine);
    assert engine.out == EncMessage(c, m);
    raw := RawMessage(magic, m, payloadLen, sum(engine.out));
  }
}
