/** The bytes on the wire, at their offsets and with their numbers, which no pair of encoder and decoder fixes alone. */
module Layout {
  import opened Primitives
  import opened Codec
  import opened Messages
  import opened Frames
  import opened Commitment

  // ----- numbers -----

  lemma Digits(n: nat, a: nat, b: nat)
    requires n == a * 256 + b && b < 256
    ensures n / 256 == a && n % 256 == b
  {
  }

  lemma LowHalf(n: nat, q: nat, r: nat, hi: nat, lo: nat)
    requires n == q * 0x1_0000 + r && r == hi * 256 + lo && hi < 256 && lo < 256
    ensures n % 256 == r % 256 == lo && n / 256 % 256 == r / 256 == hi
  {
    Digits(r, hi, lo);
    Digits(n, q * 256 + hi, lo);
    Digits(q * 256 + hi, q, hi);
  }

  lemma HighHalf(n: nat)
    requires n < 0x1_0000_0000
    ensures n / 0x1_0000 / 256 == n / 0x100_0000 < 256
  {
  }

  /** Least significant byte first. */
  lemma WordBytes(n: Word32)
    ensures EncU32(n) == [n % 256, n / 256 % 256, n / 0x1_0000 % 256, n / 0x100_0000]
  {
    var q, r := n / 0x1_0000, n % 0x1_0000;
    LowHalf(n, q, r, r / 256, r % 256);
    HighHalf(n);
    assert EncU32(n) == [r % 256, r / 256, q % 256, q / 256];
  }

  /** A count in its shortest form: one byte, or a marker and two, four or eight bytes. */
  lemma CountBytes(n: Word64)
    ensures var b := EncCount(n);
            && (n <= 252 ==> b == [n])
            && (253 <= n <= 0xFFFF ==> b == [253, n % 256, n / 256])
            && (0x1_0000 <= n <= 0xFFFF_FFFF ==>
                b == [254, n % 256, n / 256 % 256, n / 0x1_0000 % 256, n / 0x100_0000])
            && (n > 0xFFFF_FFFF ==> |b| == 9 && b[0] == 255)
  {
    if 0x1_0000 <= n <= 0xFFFF_FFFF {
      WordBytes(n);
    }
  }

  /** The eight bytes behind the widest marker. */
  lemma WideCountBytes(n: Word64)
    requires n > 0xFFFF_FFFF
    ensures var lo, hi := n % 0x1_0000_0000, n / 0x1_0000_0000;
            EncCount(n) == [255, lo % 256, lo / 256 % 256, lo / 0x1_0000 % 256, lo / 0x100_0000,
                            hi % 256, hi / 256 % 256, hi / 0x1_0000 % 256, hi / 0x100_0000]
  {
    WordBytes(n % 0x1_0000_0000);
    WordBytes(n / 0x1_0000_0000);
  }

  // ----- lists -----

  lemma {:induction false} HashAt(hs: seq<Bytes32>, i: nat)
    requires i < |hs|
    ensures |WriteMany(EncHash, hs)| == 32 * |hs| && WriteMany(EncHash, hs)[32 * i..32 * i + 32] == hs[i]
  {
    HashesLength(hs);
    HashesLength(hs[1..]);
    var first: Bytes, rest: Bytes := hs[0], WriteMany(EncHash, hs[1..]);
    assert WriteMany(EncHash, hs) == first + rest;
    if i == 0 {
      assert (first + rest)[..32] == first;
    } else {
      HashAt(hs[1..], i - 1);
      assert (first + rest)[32 * i..32 * i + 32] == rest[32 * (i - 1)..32 * (i - 1) + 32];
    }
  }

  /** A hash list: the count, then the hashes in order, 32 bytes each. */
  lemma HashListBytes(hs: seq<Bytes32>, i: nat)
    requires i < |hs| < WORDS
    ensures var b, k := EncHashes(hs), |EncCount(|hs|)|;
            |b| == k + 32 * |hs| && b[..k] == EncCount(|hs|) && b[k + 32 * i..k + 32 * i + 32] == hs[i]
  {
    HashAt(hs, i);
    Behind(EncCount(|hs|), WriteMany(EncHash, hs), 32 * i, 32 * i + 32);
  }

  lemma Behind(front: Bytes, b: Bytes, i: nat, j: nat)
    requires i <= j <= |b|
    ensures (front + b)[..|front|] == front && (front + b)[|front| + i..|front| + j] == b[i..j]
  {
  }

  // ----- headers -----

  /** Where each field of a share header starts; `u` is the length of the uncle list. */
  lemma HeaderBytes(h: WireHeader)
    ensures var b, u := EncHeader(h), |EncHashes(h.uncles)|;
            && |b| == u + 185
            && b[..32] == h.prevShareBlockhash
            && b[32..u + 32] == EncHashes(h.uncles)
            && b[u + 32..u + 65] == h.minerPubkey
            && b[u + 65..u + 97] == h.merkleRoot
            && b[u + 97..u + 177] == h.bitcoinHeader
            && b[u + 177] == h.bits % 256 && b[u + 178] == h.bits / 256 % 256
            && b[u + 179] == h.bits / 0x1_0000 % 256 && b[u + 180] == h.bits / 0x100_0000
            && b[u + 181] == h.time % 256 && b[u + 182] == h.time / 256 % 256
            && b[u + 183] == h.time / 0x1_0000 % 256 && b[u + 184] == h.time / 0x100_0000
  {
    WordBytes(h.bits);
    WordBytes(h.time);
    Sections(h.prevShareBlockhash, EncHashes(h.uncles), h.minerPubkey, h.merkleRoot, h.bitcoinHeader, EncU32(h.bits),
             EncU32(h.time));
  }

  lemma Sections(prev: Bytes32, us: Bytes, key: Bytes33, root: Bytes32, header: Bytes80, bits: Bytes4, time: Bytes4)
    ensures var b, u := (prev + us) + (key + (root + (header + (bits + time)))), |us|;
            && |b| == u + 185
            && b[..32] == prev && b[32..u + 32] == us && b[u + 32..u + 65] == key && b[u + 65..u + 97] == root
            && b[u + 97..u + 177] == header && b[u + 177..u + 181] == bits && b[u + 181..] == time
  {
  }

  /** In a list every header is followed by a zero byte. */
  lemma HeaderListBytes(h: WireHeader, more: seq<WireHeader>)
    requires |more| < 252
    ensures EncVec(EncListed, [h] + more) == [1 + |more|] + EncHeader(h) + [0] + WriteMany(EncListed, more)
  {
    CountBytes(1 + |more|);
    FirstListed(h, more);
    Joined3([1 + |more|], EncHeader(h), [0], WriteMany(EncListed, more));
  }

  lemma FirstListed(h: WireHeader, more: seq<WireHeader>)
    ensures WriteMany(EncListed, [h] + more) == (EncHeader(h) + [0]) + WriteMany(EncListed, more)
  {
    assert ([h] + more)[1..] == more && ([h] + more)[0] == h;
  }

  lemma Joined(a: Bytes, b: Bytes, c: Bytes)
    ensures a + (b + c) == a + b + c
  {
  }

  lemma Joined3(a: Bytes, b: Bytes, c: Bytes, d: Bytes)
    ensures a + ((b + c) + d) == a + b + c + d && a + (b + (c + d)) == a + b + c + d
  {
  }

  // ----- messages -----

  /** The bytes a message of each kind begins with, and what follows them. */
  function BytesOf<T>(c: TxCodec<T>, m: Message<T>): Bytes {
    match m
    case InventoryMessage(BlockHashes(hashes)) => [0, 0] + EncHashes(hashes)
    case InventoryMessage(TransactionHashes(txids)) => [0, 1] + EncHashes(txids)
    case NotFound => [1]
    case GetShareHeaders(locator, stop) => [2] + EncHashes(locator) + stop
    case GetShareBlocks(locator, stop) => [3] + EncHashes(locator) + stop
    case ShareHeaders(headers) => [4] + EncVec(EncListed, headers)
    case ShareBlockMessage(block) =>
      [5] + EncHeader(block.header) + EncVec(c.enc, block.transactions) + EncVec(c.enc, block.bitcoinTransactions)
    case GetData(Block(hash)) => [6, 0] + hash
    case GetData(Tx(txid)) => [6, 1] + txid
    case TransactionMessage(tx) => [7] + c.enc(tx)
  }

  lemma InventoryBytes<T>(c: TxCodec<T>, m: Message<T>)
    requires m.InventoryMessage? || m.GetData?
    ensures EncMessage(c, m) == BytesOf(c, m)
  {
    match m
    case InventoryMessage(BlockHashes(hashes)) =>
      assert [0] + ([0] + EncHashes(hashes)) == [0, 0] + EncHashes(hashes);
    case InventoryMessage(TransactionHashes(txids)) =>
      assert [0] + ([1] + EncHashes(txids)) == [0, 1] + EncHashes(txids);
    case GetData(Block(hash)) => assert [6] + ([0] + hash) == [6, 0] + hash;
    case GetData(Tx(txid)) => assert [6] + ([1] + txid) == [6, 1] + txid;
  }

  lemma BlockBytes<T>(c: TxCodec<T>, m: Message<T>)
    requires m.ShareBlockMessage?
    ensures EncMessage(c, m) == BytesOf(c, m)
  {
    Joined3([5], EncHeader(m.block.header), EncVec(c.enc, m.block.transactions),
            EncVec(c.enc, m.block.bitcoinTransactions));
  }

  lemma MessageBytes<T>(c: TxCodec<T>, m: Message<T>)
    ensures EncMessage(c, m) == BytesOf(c, m)
  {
    match m
    case InventoryMessage(_) => InventoryBytes(c, m);
    case GetShareHeaders(locator, stop) => Joined([2], EncHashes(locator), stop);
    case GetShareBlocks(locator, stop) => Joined([3], EncHashes(locator), stop);
    case ShareBlockMessage(_) => BlockBytes(c, m);
    case GetData(_) => InventoryBytes(c, m);
    case _ =>
  }

  /** The kind of message each first byte announces. */
  predicate Announces<T>(tag: nat, m: Message<T>) {
    match m
    case InventoryMessage(_) => tag == 0
    case NotFound => tag == 1
    case GetShareHeaders(_, _) => tag == 2
    case GetShareBlocks(_, _) => tag == 3
    case ShareHeaders(_) => tag == 4
    case ShareBlockMessage(_) => tag == 5
    case GetData(_) => tag == 6
    case TransactionMessage(_) => tag == 7
  }

  lemma BodyKind<T>(c: TxCodec<T>, tag: Byte, b: Bytes)
    ensures var p := BodyDecoder(c, tag)(b); p.Parsed? ==> Announces(tag, p.value)
  {
    match tag
    case 0 => assert BodyDecoder(c, 0)(b) == DecInventory<T>(b);
    case 1 => assert BodyDecoder(c, 1)(b) == Parsed(NotFound, b);
    case 2 => LocatorKind(c, b);
    case 3 => LocatorKind(c, b);
    case 4 => assert BodyDecoder(c, 4)(b) == As(DecHeaders(b), hs => ShareHeaders(hs));
    case 5 => BlockKind(c, b);
    case 6 => assert BodyDecoder(c, 6)(b) == DecWanted<T>(b);
    case 7 => TxKind(c, b);
    case _ => assert BodyDecoder(c, tag)(b) == Fail;
  }

  lemma LocatorKind<T>(c: TxCodec<T>, b: Bytes)
    ensures BodyDecoder(c, 2)(b).Parsed? ==> BodyDecoder(c, 2)(b).value.GetShareHeaders?
    ensures BodyDecoder(c, 3)(b).Parsed? ==> BodyDecoder(c, 3)(b).value.GetShareBlocks?
  {
  }

  lemma BlockKind<T>(c: TxCodec<T>, b: Bytes)
    ensures BodyDecoder(c, 5)(b).Parsed? ==> BodyDecoder(c, 5)(b).value.ShareBlockMessage?
  {
  }

  lemma TxKind<T>(c: TxCodec<T>, b: Bytes)
    ensures BodyDecoder(c, 7)(b).Parsed? ==> BodyDecoder(c, 7)(b).value.TransactionMessage?
  {
    match c.dec(b)
    case Parsed(tx, rest) => assert BodyDecoder(c, 7)(b) == Parsed(TransactionMessage(tx), rest);
    case Fail => assert BodyDecoder(c, 7)(b) == Fail;
  }

  /** The first byte decides what kind of message is read, and nothing is read behind any other. */
  lemma FirstByteDecides<T>(c: TxCodec<T>, b: Bytes)
    requires DecMessage(c, b).Parsed?
    ensures b != [] && Announces(b[0], DecMessage(c, b).value)
  {
    BodyKind(c, b[0], b[1..]);
  }

  /** Within an inventory and a data request the second byte does. */
  lemma SecondByteDecides<T>(c: TxCodec<T>, b: Bytes)
    requires DecMessage(c, b).Parsed?
    ensures var m := DecMessage(c, b).value;
            && (m.InventoryMessage? ==> |b| >= 2 && b[1] == (if m.inventory.BlockHashes? then 0 else 1))
            && (m.GetData? ==> |b| >= 2 && b[1] == (if m.wanted.Block? then 0 else 1))
  {
    FirstByteDecides(c, b);
  }

  // ----- frames and commitments -----

  /** Magic, length, checksum, payload. */
  lemma FrameBytes<T>(c: TxCodec<T>, raw: RawMessage<T>)
    ensures var b, n := EncRaw(c, raw), raw.payloadLen;
            && |b| == 12 + |EncMessage(c, raw.payload)|
            && b[..4] == raw.magic
            && b[4] == n % 256 && b[5] == n / 256 % 256 && b[6] == n / 0x1_0000 % 256 && b[7] == n / 0x100_0000
            && b[8..12] == raw.checksum
            && b[12..] == EncMessage(c, raw.payload)
  {
    WordBytes(raw.payloadLen);
  }

  /** Where each field of a commitment starts; the merkle root, if there is one, stands behind a flag byte of 1. */
  lemma CommitmentBytes(c: ShareCommitment)
    ensures var b, u := EncCommitment(c), |EncHashes(c.uncles)|;
            && b[..32] == c.prevShareBlockhash
            && b[32..u + 32] == EncHashes(c.uncles)
            && b[u + 32..u + 65] == c.minerPubkey
            && var k := if c.merkleRoot.Some? then u + 98 else u + 66;
            && |b| == k + 8
            && (c.merkleRoot.Some? ==> b[u + 65] == 1 && b[u + 66..u + 98] == c.merkleRoot.value)
            && (c.merkleRoot.None? ==> b[u + 65] == 0)
            && b[k..k + 4] == [c.bits % 256, c.bits / 256 % 256, c.bits / 0x1_0000 % 256, c.bits / 0x100_0000]
            && b[k + 4..] == [c.time % 256, c.time / 256 % 256, c.time / 0x1_0000 % 256, c.time / 0x100_0000]
  {
    WordBytes(c.bits);
    WordBytes(c.time);
    CommitmentSections(c.prevShareBlockhash, EncHashes(c.uncles), c.minerPubkey, EncOptRoot(c.merkleRoot),
                       EncU32(c.bits), EncU32(c.time));
    if c.merkleRoot.Some? {
      assert EncOptRoot(c.merkleRoot)[1..] == c.merkleRoot.value;
      var b, u := EncCommitment(c), |EncHashes(c.uncles)|;
      assert b[u + 65..u + 98][1..] == b[u + 66..u + 98];
    }
  }

  lemma CommitmentSections(prev: Bytes32, us: Bytes, key: Bytes33, root: Bytes, bits: Bytes4, time: Bytes4)
    ensures var b, u, r := (prev + us) + (key + (root + (bits + time))), |us|, |root|;
            && |b| == u + r + 73
            && b[..32] == prev && b[32..u + 32] == us && b[u + 32..u + 65] == key && b[u + 65..u + 65 + r] == root
            && b[u + 65 + r..u + 69 + r] == bits && b[u + 69 + r..] == time
  {
  }

  /** Any flag byte but 0 announces a merkle root. */
  lemma AnyFlagAnnouncesRoot(flag: Byte, root: Bytes32, rest: Bytes)
    requires flag != 0
    ensures DecOptRoot([flag] + (root + rest)) == Parsed(Some(root), rest)
  {
    var b: Bytes := [flag] + (root + rest);
    assert b[1..] == root + rest;
    assert (root + rest)[..32] == root && (root + rest)[32..] == rest;
  }
}
