/**
  What the decoders accept: exactly the encodings of messages within the reader caps, each followed by anything.
  The round trips in `Messages` read back what was written; here what was read is written back.
 */
module WrittenBack {
  import opened Primitives
  import opened Codec
  import opened Messages

  /** `p`, read from `b`, is a value whose encoding `b` starts with, and the rest of `b`. */
  predicate WritesBack<T>(enc: T -> Bytes, p: Parsed<T>, b: Bytes) {
    p.Parsed? ==> b == enc(p.value) + p.rest
  }

  /** Nothing but encodings is read by `dec`. */
  ghost predicate ReadsOnly<T>(enc: T -> Bytes, dec: Bytes -> Parsed<T>) {
    forall b :: WritesBack(enc, dec(b), b)
  }

  /** A foreign codec that accepts one form of each transaction. */
  ghost predicate Canonical<T>(c: TxCodec<T>) {
    ReadsOnly(c.enc, c.dec)
  }

  // ----- integers -----

  lemma U16Back(b: Bytes)
    requires |b| >= 2
    ensures b == EncU16(DecU16(b).value) + b[2..]
  {
  }

  lemma U32Back(b: Bytes)
    requires |b| >= 4
    ensures b == EncU32(DecU32(b).value) + b[4..]
  {
    var n := DecU32(b).value;
    var lo, hi := b[0] as nat + 256 * b[1] as nat, b[2] as nat + 256 * b[3] as nat;
    assert n == lo + 0x1_0000 * hi;
    assert n % 0x1_0000 == lo && n / 0x1_0000 == hi;
    assert EncU32(n) == [b[0], b[1], b[2], b[3]];
  }

  lemma U64Back(b: Bytes)
    requires |b| >= 8
    ensures b == EncU64(DecU64(b).value) + b[8..]
  {
    var lo, hi := DecU32(b).value, DecU32(b[4..]).value;
    U32Back(b);
    U32Back(b[4..]);
    assert DecU64(b).value % 0x1_0000_0000 == lo && DecU64(b).value / 0x1_0000_0000 == hi;
    assert b[4..][4..] == b[8..];
    assert b == EncU32(lo) + EncU32(hi) + b[8..];
  }

  /** Only the shortest form of a count is read. */
  lemma VarIntBack(b: Bytes)
    ensures DecVarInt(b).Parsed? ==> b == EncVarInt(DecVarInt(b).value) + DecVarInt(b).rest
  {
    if DecVarInt(b).Parsed? && b[0] >= 0xFD {
      var tail := b[1..];
      if b[0] == 0xFD {
        U16Back(tail);
      } else if b[0] == 0xFE {
        U32Back(tail);
      } else {
        U64Back(tail);
      }
      assert b == [b[0]] + tail;
    }
  }

  // ----- vectors and caps -----

  lemma {:induction false} ManyBack<T>(enc: T -> Bytes, dec: Bytes -> Parsed<T>, b: Bytes, n: nat)
    requires ReadsOnly(enc, dec)
    ensures var p := ReadMany(dec, b, n); p.Parsed? ==> |p.value| == n && b == WriteMany(enc, p.value) + p.rest
    decreases n
  {
    if n == 0 || ReadMany(dec, b, n).Fail? {
    } else {
      var first := dec(b);
      assert WritesBack(enc, first, b);
      ManyBack(enc, dec, first.rest, n - 1);
      var p := ReadMany(dec, first.rest, n - 1);
      assert ([first.value] + p.value)[1..] == p.value;
      Regroup(enc(first.value), WriteMany(enc, p.value), p.rest);
    }
  }

  lemma Regroup(a: Bytes, b: Bytes, c: Bytes)
    ensures a + (b + c) == (a + b) + c
  {
  }

  lemma VecBack<T>(enc: T -> Bytes, dec: Bytes -> Parsed<T>, b: Bytes)
    requires ReadsOnly(enc, dec)
    ensures var p := DecVec(dec, b); p.Parsed? ==> |p.value| < WORDS && b == EncVec(enc, p.value) + p.rest
  {
    var n := DecVarInt(b);
    if n.Parsed? {
      VarIntBack(b);
      ManyBack(enc, dec, n.rest, n.value);
      var p := ReadMany(dec, n.rest, n.value);
      if p.Parsed? {
        Regroup(EncVarInt(n.value), WriteMany(enc, p.value), p.rest);
      }
    }
  }

  /** What a capped reader accepts is within its cap. */
  lemma CappedBack<T>(encoded: Bytes, dec: Bytes -> Parsed<T>, cap: nat, b: Bytes)
    requires var w := b[..Min(cap, |b|)]; dec(w).Parsed? ==> w == encoded + dec(w).rest
    ensures var p := Capped(dec, cap, b); p.Parsed? ==> b == encoded + p.rest && |encoded| <= cap
  {
    var k := Min(cap, |b|);
    if dec(b[..k]).Parsed? {
      Regroup(encoded, dec(b[..k]).rest, b[k..]);
      assert b == b[..k] + b[k..];
    }
  }

  lemma CappedVecBack<T>(enc: T -> Bytes, dec: Bytes -> Parsed<T>, cap: nat, b: Bytes)
    requires ReadsOnly(enc, dec)
    ensures var p := Capped(w => DecVec(dec, w), cap, b);
            p.Parsed? ==> |p.value| < WORDS && b == EncVec(enc, p.value) + p.rest && |EncVec(enc, p.value)| <= cap
  {
    var p := Capped(w => DecVec(dec, w), cap, b);
    if p.Parsed? {
      VecBack(enc, dec, b[..Min(cap, |b|)]);
      CappedBack(EncVec(enc, p.value), w => DecVec(dec, w), cap, b);
    }
  }

  lemma HashReadsOnly()
    ensures ReadsOnly(EncHash, DecHash)
  {
    forall b ensures WritesBack(EncHash, DecHash(b), b) {
    }
  }

  /** Codecs that read back what they wrote and accept nothing else exist: that of plain hashes is one. */
  lemma HashCodecIsBoth()
    ensures var c := TxCodec(EncHash, DecHash); Lawful(c) && Canonical(c)
  {
    forall h ensures Reads(DecHash, EncHash(h), h) {
      ReadsHash(h);
    }
    HashReadsOnly();
  }

  lemma HashesBack(b: Bytes)
    ensures var p := DecHashes(b); p.Parsed? ==> ListFits(p.value) && b == EncHashes(p.value) + p.rest
  {
    HashReadsOnly();
    CappedVecBack(EncHash, DecHash, MAX_VEC_SIZE, b);
  }

  // ----- share headers -----

  lemma BothBack<A, B>(decA: Bytes -> Parsed<A>, decB: Bytes -> Parsed<B>, encA: Bytes, encB: Bytes, b: Bytes)
    requires Both(decA, decB, b).Parsed?
    requires b == encA + decA(b).rest
    requires decA(b).rest == encB + decB(decA(b).rest).rest
    ensures b == (encA + encB) + Both(decA, decB, b).rest
  {
  }

  lemma BitsTimeBack(b: Bytes)
    ensures var p := DecBitsTime(b);
            p.Parsed? ==> b == (EncU32(p.value.0) + EncU32(p.value.1)) + p.rest
  {
    var p := DecBitsTime(b);
    if p.Parsed? {
      U32Back(b);
      U32Back(b[4..]);
      BothBack(DecU32, DecU32, EncU32(p.value.0), EncU32(p.value.1), b);
    }
  }

  function EncRootOf(root: Bytes32, header: Bytes80, bits: Word32, time: Word32): Bytes {
    root + (header + (EncU32(bits) + EncU32(time)))
  }

  lemma RootBack(b: Bytes)
    ensures var p := DecMerkleRoot(b);
            p.Parsed? ==> b == EncRootOf(p.value.0, p.value.1.0, p.value.1.1.0, p.value.1.1.1) + p.rest
  {
    var p := DecMerkleRoot(b);
    if p.Parsed? {
      var tail := b[32..];
      var (root, (header, (bits, time))) := p.value;
      BitsTimeBack(tail[80..]);
      BothBack(Dec80, DecBitsTime, header, EncU32(bits) + EncU32(time), tail);
      BothBack(DecHash, DecBitcoinHeader, root, header + (EncU32(bits) + EncU32(time)), b);
    }
  }

  lemma PubkeyBack(b: Bytes)
    ensures var p := DecPubkey(b);
            p.Parsed? ==>
              var (key, (root, (header, (bits, time)))) := p.value;
              b == (key + EncRootOf(root, header, bits, time)) + p.rest
  {
    var p := DecPubkey(b);
    if p.Parsed? {
      var (key, (root, (header, (bits, time)))) := p.value;
      RootBack(b[33..]);
      BothBack(Dec33, DecMerkleRoot, key, EncRootOf(root, header, bits, time), b);
    }
  }

  lemma LinksBack(b: Bytes)
    ensures var p := DecLinks(b);
            p.Parsed? ==> ListFits(p.value.1) && b == (p.value.0 + EncHashes(p.value.1)) + p.rest
  {
    var p := DecLinks(b);
    if p.Parsed? {
      HashesBack(b[32..]);
      BothBack(DecHash, DecHashes, p.value.0, EncHashes(p.value.1), b);
    }
  }

  lemma HeaderBack(b: Bytes)
    ensures var p := DecHeader(b); p.Parsed? ==> HeaderFits(p.value) && b == EncHeader(p.value) + p.rest
  {
    var p := DecHeader(b);
    if p.Parsed? {
      LinksBack(b);
      PubkeyBack(DecLinks(b).rest);
      BothBack(DecLinks, DecPubkey, p.value.prevShareBlockhash + EncHashes(p.value.uncles),
               p.value.minerPubkey + EncRoot(p.value), b);
    }
  }

  // ----- header lists -----

  lemma ListedBack(b: Bytes)
    ensures var p := DecListed(b); p.Parsed? ==> HeaderFits(p.value) && b == EncListed(p.value) + p.rest
  {
    var p := DecListed(b);
    if p.Parsed? {
      HeaderBack(b);
      BothBack(DecHeader, DecZero, EncHeader(p.value), [0], b);
    }
  }

  lemma ListedReadsOnly()
    ensures ReadsOnly(EncListed, DecListed)
  {
    forall b ensures WritesBack(EncListed, DecListed(b), b) {
      ListedBack(b);
    }
  }

  /** Every item of a list was read somewhere. */
  lemma {:induction false} ManyRead<T>(dec: Bytes -> Parsed<T>, b: Bytes, n: nat, x: T) returns (at: Bytes)
    requires ReadMany(dec, b, n).Parsed? && x in ReadMany(dec, b, n).value
    ensures dec(at).Parsed? && dec(at).value == x
    decreases n
  {
    if dec(b).value == x {
      at := b;
    } else {
      at := ManyRead(dec, dec(b).rest, n - 1, x);
    }
  }

  lemma HeadersBack(b: Bytes)
    ensures var p := DecHeaders(b); p.Parsed? ==> HeadersFit(p.value) && b == EncVec(EncListed, p.value) + p.rest
  {
    var p := DecHeaders(b);
    if p.Parsed? {
      ListedReadsOnly();
      CappedVecBack(EncListed, DecListed, MAX_MSG_SIZE, b);
      var n := DecVarInt(b[..Min(MAX_MSG_SIZE, |b|)]);
      forall h | h in p.value ensures HeaderFits(h) {
        var at := ManyRead(DecListed, n.rest, n.value, h);
        ListedBack(at);
      }
    }
  }

  // ----- share blocks -----

  lemma BlockBack<T>(c: TxCodec<T>, b: Bytes)
    requires Canonical(c)
    ensures var p := DecBlock(c, b); p.Parsed? ==> BlockFits(c, p.value) && b == EncBlock(c, p.value) + p.rest
  {
    var p := DecBlock(c, b);
    if p.Parsed? {
      var header := DecHeader(b);
      HeaderBack(b);
      var txs := DecVec(c.dec, header.rest);
      VecBack(c.enc, c.dec, header.rest);
      CappedVecBack(c.enc, c.dec, MAX_VEC_SIZE, txs.rest);
      Regroup4(EncHeader(header.value), EncVec(c.enc, txs.value), EncVec(c.enc, p.value.bitcoinTransactions), p.rest);
    }
  }

  lemma Regroup4(a: Bytes, b: Bytes, c: Bytes, d: Bytes)
    ensures a + (b + (c + d)) == (a + (b + c)) + d
  {
  }

  // ----- messages -----

  /** `p`, read from `b` behind the discriminant, is a message that fits and whose body `b` starts with. */
  predicate BodyBack<T>(c: TxCodec<T>, tag: Byte, p: Parsed<Message<T>>, b: Bytes) {
    p.Parsed? ==> Fits(c, p.value) && Discriminant(p.value) == tag && b == EncBody(c, p.value) + p.rest
  }

  lemma InventoryBack<T>(c: TxCodec<T>, b: Bytes)
    ensures BodyBack(c, 0, DecInventory<T>(b), b)
  {
    if DecInventory<T>(b).Parsed? {
      HashesBack(b[1..]);
      BothBack(DecU8, DecHashes, [b[0]], EncHashes(DecHashes(b[1..]).value), b);
    }
  }

  lemma WantedBack<T>(c: TxCodec<T>, b: Bytes)
    ensures BodyBack(c, 6, DecWanted<T>(b), b)
  {
    if DecWanted<T>(b).Parsed? {
      BothBack(DecU8, DecHash, [b[0]], DecHash(b[1..]).value, b);
    }
  }

  lemma LocatorBack(b: Bytes)
    ensures var p := DecLocator(b);
            p.Parsed? ==> ListFits(p.value.0) && b == (EncHashes(p.value.0) + p.value.1) + p.rest
  {
    var p := DecLocator(b);
    if p.Parsed? {
      HashesBack(b);
      BothBack(DecHashes, DecHash, EncHashes(p.value.0), p.value.1, b);
    }
  }

  lemma LocatorBodyBack<T>(c: TxCodec<T>, tag: Byte, b: Bytes)
    requires tag == 2 || tag == 3
    ensures BodyBack(c, tag, BodyDecoder(c, tag)(b), b)
  {
    LocatorBack(b);
  }

  lemma HeadersBodyBack<T>(c: TxCodec<T>, b: Bytes)
    ensures BodyBack(c, 4, BodyDecoder(c, 4)(b), b)
  {
    HeadersBack(b);
  }

  lemma BlockBodyBack<T>(c: TxCodec<T>, b: Bytes)
    requires Canonical(c)
    ensures BodyBack(c, 5, BodyDecoder(c, 5)(b), b)
  {
    BlockBack(c, b);
  }

  lemma TxBodyBack<T>(c: TxCodec<T>, b: Bytes)
    requires Canonical(c)
    ensures BodyBack(c, 7, BodyDecoder(c, 7)(b), b)
  {
    assert WritesBack(c.enc, c.dec(b), b);
  }

  lemma BodyReadsOnly<T>(c: TxCodec<T>, tag: Byte, b: Bytes)
    requires Canonical(c)
    ensures BodyBack(c, tag, BodyDecoder(c, tag)(b), b)
  {
    match tag
    case 0 => InventoryBack(c, b);
    case 1 => assert b == [] + b;
    case 2 => LocatorBodyBack(c, tag, b);
    case 3 => LocatorBodyBack(c, tag, b);
    case 4 => HeadersBodyBack(c, b);
    case 5 => BlockBodyBack(c, b);
    case 6 => WantedBack(c, b);
    case 7 => TxBodyBack(c, b);
    case _ =>
  }

  /** What is read is a message that fits, and the bytes are its encoding and what is left. */
  lemma MessageBack<T>(c: TxCodec<T>, b: Bytes)
    requires Canonical(c)
    ensures var p := DecMessage(c, b); p.Parsed? ==> Fits(c, p.value) && b == EncMessage(c, p.value) + p.rest
  {
    if DecMessage(c, b).Parsed? {
      BodyReadsOnly(c, b[0], b[1..]);
      Regroup([b[0]], EncBody(c, DecMessage(c, b).value), DecMessage(c, b).rest);
      assert b == [b[0]] + b[1..];
    }
  }

  /** The decoder reads `m` and leaves `rest` exactly on the encoding of `m` followed by `rest`, within the caps. */
  lemma MessageIff<T(!new)>(c: TxCodec<T>, b: Bytes, m: Message<T>, rest: Bytes)
    requires Lawful(c) && Canonical(c)
    ensures DecMessage(c, b) == Parsed(m, rest) <==> Fits(c, m) && b == EncMessage(c, m) + rest
  {
    MessageBack(c, b);
    if Fits(c, m) {
      ReadsMessage(c, m, rest);
    }
  }
}
