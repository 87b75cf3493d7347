/**
  The peer-to-peer messages and their frames. Bitcoin transactions and the checksum are foreign; both are
  parameters: a transaction codec that reads back what it wrote, and any four-byte digest.
 */
module Messages {
  import opened Codec

  /** A foreign codec. */
  datatype TxCodec<!T> = TxCodec(enc: T -> Bytes, dec: Bytes -> Parsed<T>)

  ghost predicate Lawful<T(!new)>(c: TxCodec<T>) {
    forall x :: Reads(c.dec, c.enc(x), x)
  }

  /** The limit rust-bitcoin puts on one network message. */
  const MAX_MSG_SIZE: nat := 5_000_000

  // ----- share headers -----

  datatype WireHeader = WireHeader(
    prevShareBlockhash: Bytes32,
    uncles: seq<Bytes32>,
    minerPubkey: Bytes33,
    merkleRoot: Bytes32,
    bitcoinHeader: Bytes80,
    bits: Word32,
    time: Word32)

  predicate HeaderFits(h: WireHeader) {
    |EncHashes(h.uncles)| <= 4_000_000
  }

  // A header is read field by field; each stage reads one field and then the stage below it.

  function DecBitsTime(b: Bytes): Parsed<(Word32, Word32)> {
    Both(DecU32, DecU32, b)
  }

  function DecBitcoinHeader(b: Bytes): Parsed<(Bytes80, (Word32, Word32))> {
    Both(Dec80, DecBitsTime, b)
  }

  function DecMerkleRoot(b: Bytes): Parsed<(Bytes32, (Bytes80, (Word32, Word32)))> {
    Both(DecHash, DecBitcoinHeader, b)
  }

  function DecPubkey(b: Bytes): Parsed<(Bytes33, (Bytes32, (Bytes80, (Word32, Word32))))> {
    Both(Dec33, DecMerkleRoot, b)
  }

  function DecLinks(b: Bytes): Parsed<(Bytes32, seq<Bytes32>)> {
    Both(DecHash, DecHashes, b)
  }

  function DecHeader(b: Bytes): Parsed<WireHeader> {
    match Both(DecLinks, DecPubkey, b)
    case Fail => Fail
    case Parsed(((prev, uncles), (key, (root, (header, (bits, time))))), rest) =>
      Parsed(WireHeader(prev, uncles, key, root, header, bits, time), rest)
  }

  function EncRoot(h: WireHeader): Bytes {
    h.merkleRoot + (h.bitcoinHeader + (EncU32(h.bits) + EncU32(h.time)))
  }

  function EncHeader(h: WireHeader): Bytes {
    (h.prevShareBlockhash + EncHashes(h.uncles)) + (h.minerPubkey + EncRoot(h))
  }

  lemma ReadsBitsTime(bits: Word32, time: Word32)
    ensures Reads(DecBitsTime, EncU32(bits) + EncU32(time), (bits, time))
  {
    ReadsWord(bits);
    ReadsWord(time);
    forall rest ensures DecBitsTime((EncU32(bits) + EncU32(time)) + rest) == Parsed((bits, time), rest) {
      ReadsBoth(DecU32, DecU32, EncU32(bits), EncU32(time), bits, time, rest);
    }
  }

  lemma ReadsRoot(h: WireHeader)
    ensures Reads(DecMerkleRoot, EncRoot(h), (h.merkleRoot, (h.bitcoinHeader, (h.bits, h.time))))
  {
    var t := EncU32(h.bits) + EncU32(h.time);
    ReadsBitsTime(h.bits, h.time);
    Reads80(h.bitcoinHeader);
    forall rest
      ensures DecBitcoinHeader((h.bitcoinHeader + t) + rest) == Parsed((h.bitcoinHeader, (h.bits, h.time)), rest)
    {
      ReadsBoth(Dec80, DecBitsTime, h.bitcoinHeader, t, h.bitcoinHeader, (h.bits, h.time), rest);
    }
    assert Reads(DecBitcoinHeader, h.bitcoinHeader + t, (h.bitcoinHeader, (h.bits, h.time)));
    ReadsHash(h.merkleRoot);
    forall rest
      ensures DecMerkleRoot(EncRoot(h) + rest) == Parsed((h.merkleRoot, (h.bitcoinHeader, (h.bits, h.time))), rest)
    {
      ReadsBoth(DecHash, DecBitcoinHeader, EncHash(h.merkleRoot), h.bitcoinHeader + t, h.merkleRoot,
          (h.bitcoinHeader, (h.bits, h.time)), rest);
    }
  }

  lemma ReadsLinks(prev: Bytes32, uncles: seq<Bytes32>)
    requires |EncHashes(uncles)| <= MAX_VEC_SIZE
    ensures Reads(DecLinks, prev + EncHashes(uncles), (prev, uncles))
  {
    ReadsHash(prev);
    ReadsHashes(uncles);
    forall rest ensures DecLinks((prev + EncHashes(uncles)) + rest) == Parsed((prev, uncles), rest) {
      ReadsBoth(DecHash, DecHashes, EncHash(prev), EncHashes(uncles), prev, uncles, rest);
    }
  }

  lemma ReadsHeader(h: WireHeader)
    requires HeaderFits(h)
    ensures Reads(DecHeader, EncHeader(h), h)
  {
    var back := (h.merkleRoot, (h.bitcoinHeader, (h.bits, h.time)));
    ReadsRoot(h);
    Reads33(h.minerPubkey);
    forall rest ensures DecPubkey((h.minerPubkey + EncRoot(h)) + rest) == Parsed((h.minerPubkey, back), rest) {
      ReadsBoth(Dec33, DecMerkleRoot, h.minerPubkey, EncRoot(h), h.minerPubkey, back, rest);
    }
    assert Reads(DecPubkey, h.minerPubkey + EncRoot(h), (h.minerPubkey, back));
    ReadsLinks(h.prevShareBlockhash, h.uncles);
    forall rest ensures DecHeader(EncHeader(h) + rest) == Parsed(h, rest) {
      ReadsBoth(DecLinks, DecPubkey, h.prevShareBlockhash + EncHashes(h.uncles), h.minerPubkey + EncRoot(h),
                (h.prevShareBlockhash, h.uncles), (h.minerPubkey, back), rest);
    }
  }

  // ----- header lists: each header is followed by a zero byte -----

  function EncListed(h: WireHeader): Bytes {
    EncHeader(h) + [0]
  }

  function DecZero(b: Bytes): Parsed<()> {
    if |b| == 0 || b[0] != 0 then Fail else Parsed((), b[1..])
  }

  function DecListed(b: Bytes): Parsed<WireHeader> {
    match Both(DecHeader, DecZero, b)
    case Fail => Fail
    case Parsed((h, _), rest) => Parsed(h, rest)
  }

  lemma ReadsListed(h: WireHeader)
    requires HeaderFits(h)
    ensures Reads(DecListed, EncListed(h), h)
  {
    ReadsHeader(h);
    forall rest ensures DecZero([0] + rest) == Parsed((), rest) {
    }
    assert Reads(DecZero, [0], ());
    forall rest ensures DecListed(EncListed(h) + rest) == Parsed(h, rest) {
      ReadsBoth(DecHeader, DecZero, EncHeader(h), [0], h, (), rest);
    }
  }

  predicate HeadersFit(hs: seq<WireHeader>) {
    && |hs| < WORDS
    && (forall h :: h in hs ==> HeaderFits(h))
    && |EncVec(EncListed, hs)| <= 5_000_000
  }

  function DecHeaders(b: Bytes): Parsed<seq<WireHeader>> {
    Capped(w => DecVec(DecListed, w), MAX_MSG_SIZE, b)
  }

  lemma ReadsHeaders(hs: seq<WireHeader>, rest: Bytes)
    requires HeadersFit(hs)
    ensures DecHeaders(EncVec(EncListed, hs) + rest) == Parsed(hs, rest)
  {
    var dec := w => DecVec(DecListed, w);
    forall h | h in hs ensures Reads(DecListed, EncListed(h), h) {
      ReadsListed(h);
    }
    forall r ensures dec(EncVec(EncListed, hs) + r) == Parsed(hs, r) {
      ReadsVec(EncListed, DecListed, hs, r);
    }
    ReadsCapped(dec, MAX_MSG_SIZE, EncVec(EncListed, hs), hs, rest);
  }

  // ----- share blocks -----

  datatype WireBlock<T> = WireBlock(header: WireHeader, transactions: seq<T>, bitcoinTransactions: seq<T>)

  predicate BlockFits<T>(c: TxCodec<T>, b: WireBlock<T>) {
    && HeaderFits(b.header)
    && |b.transactions| < WORDS && |b.bitcoinTransactions| < WORDS
    && |EncVec(c.enc, b.bitcoinTransactions)| <= 4_000_000
  }

  function EncBlock<T>(c: TxCodec<T>, b: WireBlock<T>): Bytes {
    EncHeader(b.header) + (EncVec(c.enc, b.transactions) + EncVec(c.enc, b.bitcoinTransactions))
  }

  /** The share-chain transactions are read without a cap, the bitcoin transactions as a capped vector. */
  function DecBlock<T>(c: TxCodec<T>, b: Bytes): Parsed<WireBlock<T>> {
    var header := DecHeader(b);
    if header.Fail? then Fail else
    var txs := DecVec(c.dec, header.rest);
    if txs.Fail? then Fail else
    var bitcoinTxs := Capped(w => DecVec(c.dec, w), MAX_VEC_SIZE, txs.rest);
    if bitcoinTxs.Fail? then Fail else
    Parsed(WireBlock(header.value, txs.value, bitcoinTxs.value), bitcoinTxs.rest)
  }

  lemma ReadsBlock<T(!new)>(c: TxCodec<T>, b: WireBlock<T>, rest: Bytes)
    requires Lawful(c) && BlockFits(c, b)
    ensures DecBlock(c, EncBlock(c, b) + rest) == Parsed(b, rest)
  {
    var txs, btxs := EncVec(c.enc, b.transactions), EncVec(c.enc, b.bitcoinTransactions);
    assert EncBlock(c, b) + rest == EncHeader(b.header) + (txs + (btxs + rest));
    ReadsHeader(b.header);
    assert DecHeader(EncHeader(b.header) + (txs + (btxs + rest))) == Parsed(b.header, txs + (btxs + rest));
    ReadsVec(c.enc, c.dec, b.transactions, btxs + rest);
    var dec := w => DecVec(c.dec, w);
    forall r ensures dec(btxs + r) == Parsed(b.bitcoinTransactions, r) {
      ReadsVec(c.enc, c.dec, b.bitcoinTransactions, r);
    }
    ReadsCapped(dec, MAX_VEC_SIZE, btxs, b.bitcoinTransactions, rest);
  }

  // ----- messages -----

  datatype Inventory = BlockHashes(hashes: seq<Bytes32>) | TransactionHashes(txids: seq<Bytes32>)

  datatype Wanted = Block(hash: Bytes32) | Tx(txid: Bytes32)

  datatype Message<T> =
    | InventoryMessage(inventory: Inventory)
    | NotFound
    | GetShareHeaders(locator: seq<Bytes32>, stop: Bytes32)
    | GetShareBlocks(locator: seq<Bytes32>, stop: Bytes32)
    | ShareHeaders(headers: seq<WireHeader>)
    | ShareBlockMessage(block: WireBlock<T>)
    | GetData(wanted: Wanted)
    | TransactionMessage(tx: T)

  predicate ListFits(hs: seq<Bytes32>) {
    |EncHashes(hs)| <= 4_000_000
  }

  function Listed(i: Inventory): seq<Bytes32> {
    match i
    case BlockHashes(hs) => hs
    case TransactionHashes(ts) => ts
  }

  /** Every list of the message is within the reader caps. */
  predicate Fits<T>(c: TxCodec<T>, m: Message<T>) {
    match m
    case InventoryMessage(i) => ListFits(Listed(i))
    case GetShareHeaders(locator, _) => ListFits(locator)
    case GetShareBlocks(locator, _) => ListFits(locator)
    case ShareHeaders(headers) => HeadersFit(headers)
    case ShareBlockMessage(block) => BlockFits(c, block)
    case _ => true
  }

  function EncInventory(i: Inventory): Bytes {
    [if i.BlockHashes? then 0 else 1] + EncHashes(Listed(i))
  }

  function EncWanted(w: Wanted): Bytes {
    match w
    case Block(h) => [0] + h
    case Tx(t) => [1] + t
  }

  function EncBody<T>(c: TxCodec<T>, m: Message<T>): Bytes {
    match m
    case InventoryMessage(i) => EncInventory(i)
    case NotFound => []
    case GetShareHeaders(locator, stop) => EncHashes(locator) + stop
    case GetShareBlocks(locator, stop) => EncHashes(locator) + stop
    case ShareHeaders(headers) => EncVec(EncListed, headers)
    case ShareBlockMessage(block) => EncBlock(c, block)
    case GetData(wanted) => EncWanted(wanted)
    case TransactionMessage(tx) => c.enc(tx)
  }

  function Discriminant<T>(m: Message<T>): Byte {
    match m
    case InventoryMessage(_) => 0
    case NotFound => 1
    case GetShareHeaders(_, _) => 2
    case GetShareBlocks(_, _) => 3
    case ShareHeaders(_) => 4
    case ShareBlockMessage(_) => 5
    case GetData(_) => 6
    case TransactionMessage(_) => 7
  }

  function EncMessage<T>(c: TxCodec<T>, m: Message<T>): Bytes {
    [Discriminant(m)] + EncBody(c, m)
  }

  /** Wrap what was read. */
  function As<A, B>(p: Parsed<A>, f: A -> B): Parsed<B> {
    match p
    case Fail => Fail
    case Parsed(x, rest) => Parsed(f(x), rest)
  }

  function DecInventory<T>(b: Bytes): Parsed<Message<T>> {
    match Both(DecU8, DecHashes, b)
    case Fail => Fail
    case Parsed((tag, hs), rest) =>
      if tag == 0 then Parsed(InventoryMessage(BlockHashes(hs)), rest)
      else if tag == 1 then Parsed(InventoryMessage(TransactionHashes(hs)), rest)
      else Fail
  }

  function DecWanted<T>(b: Bytes): Parsed<Message<T>> {
    match Both(DecU8, DecHash, b)
    case Fail => Fail
    case Parsed((tag, h), rest) =>
      if tag == 0 then Parsed(GetData(Block(h)), rest) else if tag == 1 then Parsed(GetData(Tx(h)), rest) else Fail
  }

  function DecLocator(b: Bytes): Parsed<(seq<Bytes32>, Bytes32)> {
    Both(DecHashes, DecHash, b)
  }

  /** The decoder each discriminant selects. */
  function BodyDecoder<T>(c: TxCodec<T>, tag: Byte): Bytes -> Parsed<Message<T>> {
    match tag
    case 0 => b => DecInventory(b)
    case 1 => b => Parsed(NotFound, b)
    case 2 => b => As(DecLocator(b), (l: (seq<Bytes32>, Bytes32)) => GetShareHeaders(l.0, l.1))
    case 3 => b => As(DecLocator(b), (l: (seq<Bytes32>, Bytes32)) => GetShareBlocks(l.0, l.1))
    case 4 => b => As(DecHeaders(b), hs => ShareHeaders(hs))
    case 5 => b => As(DecBlock(c, b), block => ShareBlockMessage(block))
    case 6 => b => DecWanted(b)
    case 7 => b => As(c.dec(b), tx => TransactionMessage(tx))
    case _ => b => Fail
  }

  function DecMessage<T>(c: TxCodec<T>, b: Bytes): Parsed<Message<T>> {
    if |b| == 0 then Fail else BodyDecoder(c, b[0])(b[1..])
  }

  lemma ReadsU8(n: Byte)
    ensures Reads(DecU8, [n], n)
  {
    forall rest: Bytes ensures DecU8([n] + rest) == Parsed(n, rest) {
      assert ([n] + rest)[1..] == rest;
    }
  }

  lemma ReadsInventory<T(!new)>(i: Inventory, rest: Bytes)
    requires ListFits(Listed(i))
    ensures DecInventory<T>(EncInventory(i) + rest) == Parsed(InventoryMessage(i), rest)
  {
    var tag: Byte := if i.BlockHashes? then 0 else 1;
    ReadsU8(tag);
    ReadsHashes(Listed(i));
    ReadsBoth(DecU8, DecHashes, [tag], EncHashes(Listed(i)), tag, Listed(i), rest);
  }

  lemma ReadsWanted<T(!new)>(w: Wanted, rest: Bytes)
    ensures DecWanted<T>(EncWanted(w) + rest) == Parsed(GetData(w), rest)
  {
    var tag: Byte := if w.Block? then 0 else 1;
    var h: Bytes32 := if w.Block? then w.hash else w.txid;
    ReadsU8(tag);
    ReadsHash(h);
    ReadsBoth(DecU8, DecHash, [tag], EncHash(h), tag, h, rest);
  }

  lemma ReadsLocator(locator: seq<Bytes32>, stop: Bytes32, rest: Bytes)
    requires ListFits(locator)
    ensures DecLocator((EncHashes(locator) + stop) + rest) == Parsed((locator, stop), rest)
  {
    ReadsHashes(locator);
    ReadsHash(stop);
    ReadsBoth(DecHashes, DecHash, EncHashes(locator), EncHash(stop), locator, stop, rest);
  }

  lemma ReadsLocatorBody<T(!new)>(c: TxCodec<T>, m: Message<T>, rest: Bytes)
    requires (m.GetShareHeaders? || m.GetShareBlocks?) && ListFits(m.locator)
    ensures BodyDecoder(c, Discriminant(m))(EncBody(c, m) + rest) == Parsed(m, rest)
  {
    ReadsLocator(m.locator, m.stop, rest);
  }

  lemma ReadsHeadersBody<T(!new)>(c: TxCodec<T>, m: Message<T>, rest: Bytes)
    requires m.ShareHeaders? && HeadersFit(m.headers)
    ensures BodyDecoder(c, Discriminant(m))(EncBody(c, m) + rest) == Parsed(m, rest)
  {
    ReadsHeaders(m.headers, rest);
  }

  lemma ReadsBlockBody<T(!new)>(c: TxCodec<T>, m: Message<T>, rest: Bytes)
    requires Lawful(c) && m.ShareBlockMessage? && BlockFits(c, m.block)
    ensures BodyDecoder(c, Discriminant(m))(EncBody(c, m) + rest) == Parsed(m, rest)
  {
    ReadsBlock(c, m.block, rest);
    DecodesAsBlock(c, m.block, EncBlock(c, m.block), rest);
  }

  lemma DecodesAsBlock<T(!new)>(c: TxCodec<T>, block: WireBlock<T>, bytes: Bytes, rest: Bytes)
    requires DecBlock(c, bytes + rest) == Parsed(block, rest)
    ensures BodyDecoder(c, 5)(bytes + rest) == Parsed(ShareBlockMessage(block), rest)
  {
  }

  lemma ReadsBody<T(!new)>(c: TxCodec<T>, m: Message<T>, rest: Bytes)
    requires Lawful(c) && Fits(c, m)
    ensures BodyDecoder(c, Discriminant(m))(EncBody(c, m) + rest) == Parsed(m, rest)
  {
    match m
    case InventoryMessage(i) => ReadsInventory<T>(i, rest);
    case NotFound => assert [] + rest == rest;
    case GetShareHeaders(_, _) => ReadsLocatorBody(c, m, rest);
    case GetShareBlocks(_, _) => ReadsLocatorBody(c, m, rest);
    case ShareHeaders(_) => ReadsHeadersBody(c, m, rest);
    case ShareBlockMessage(_) => ReadsBlockBody(c, m, rest);
    case GetData(wanted) => ReadsWanted<T>(wanted, rest);
    case TransactionMessage(tx) =>
      assert Reads(c.dec, c.enc(tx), tx);
      assert c.dec(c.enc(tx) + rest) == Parsed(tx, rest);
  }

  /** Every message decodes back from its encoding followed by arbitrary bytes, and leaves exactly those bytes. */
  lemma ReadsMessage<T(!new)>(c: TxCodec<T>, m: Message<T>, rest: Bytes)
    requires Lawful(c) && Fits(c, m)
    ensures DecMessage(c, EncMessage(c, m) + rest) == Parsed(m, rest)
  {
    var b := EncMessage(c, m) + rest;
    assert b[0] == Discriminant(m) && b[1..] == EncBody(c, m) + rest;
    ReadsBody(c, m, rest);
  }

  /** No encoding is a prefix of another: messages on a stream cannot be confused. */
  lemma MessagePrefixFree<T(!new)>(c: TxCodec<T>, a: Message<T>, b: Message<T>, more: Bytes)
    requires Lawful(c) && Fits(c, a) && Fits(c, b)
    requires EncMessage(c, a) + more == EncMessage(c, b)
    ensures a == b && more == []
  {
    ReadsMessage(c, a, more);
    ReadsMessage(c, b, []);
    assert EncMessage(c, b) + [] == EncMessage(c, b);
  }
}
