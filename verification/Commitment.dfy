/** `ShareCommitment`: what a miner commits to in the bitcoin coinbase. */
module Commitment {
  import opened Primitives
  import opened Codec
  import opened Messages
  import opened Writers

  datatype ShareCommitment = ShareCommitment(
    prevShareBlockhash: Bytes32,
    uncles: seq<Bytes32>,
    minerPubkey: Bytes33,
    merkleRoot: Option<Bytes32>,
    bits: Word32,
    time: Word32)

  /** An optional root: a flag byte, then the root if there is one. */
  function EncOptRoot(r: Option<Bytes32>): Bytes {
    if r.Some? then [1] + r.value else [0]
  }

  /** Any nonzero flag byte announces a root. */
  function DecOptRoot(b: Bytes): Parsed<Option<Bytes32>> {
    if |b| == 0 then Fail
    else if b[0] == 0 then Parsed(None, b[1..])
    else
      match DecHash(b[1..])
      case Fail => Fail
      case Parsed(h, rest) => Parsed(Some(h), rest)
  }

  lemma ReadsOptRoot(r: Option<Bytes32>)
    ensures Reads(DecOptRoot, EncOptRoot(r), r)
  {
    forall rest ensures DecOptRoot(EncOptRoot(r) + rest) == Parsed(r, rest) {
      var b := EncOptRoot(r) + rest;
      if r.Some? {
        assert b[1..] == r.value + rest;
        ReadsHash(r.value);
        assert DecHash(EncHash(r.value) + rest) == Parsed(r.value, rest);
      } else {
        assert b[1..] == rest;
      }
    }
  }

  predicate UnclesFit(c: ShareCommitment) {
    |EncHashes(c.uncles)| <= 4_000_000
  }

  function EncCommitment(c: ShareCommitment): Bytes
  {
    (c.prevShareBlockhash + EncHashes(c.uncles))
        + (c.minerPubkey + (EncOptRoot(c.merkleRoot) + (EncU32(c.bits) + EncU32(c.time))))
  }

  function DecRootBits(b: Bytes): Parsed<(Option<Bytes32>, (Word32, Word32))> {
    Both(DecOptRoot, DecBitsTime, b)
  }

  function DecKeyRoot(b: Bytes): Parsed<(Bytes33, (Option<Bytes32>, (Word32, Word32)))> {
    Both(Dec33, DecRootBits, b)
  }

  function DecCommitment(b: Bytes): Parsed<ShareCommitment> {
    match Both(DecLinks, DecKeyRoot, b)
    case Fail => Fail
    case Parsed(((prev, uncles), (key, (root, (bits, time)))),
        rest) => Parsed(ShareCommitment(prev, uncles, key, root, bits, time), rest)
  }

  /** A commitment decodes back from its encoding followed by anything. */
  lemma ReadsCommitment(c: ShareCommitment, rest: Bytes)
    requires UnclesFit(c)
    ensures DecCommitment(EncCommitment(c) + rest) == Parsed(c, rest)
  {
    var t := EncU32(c.bits) + EncU32(c.time);
    ReadsBitsTime(c.bits, c.time);
    ReadsOptRoot(c.merkleRoot);
    forall r ensures DecRootBits((EncOptRoot(c.merkleRoot) + t) + r) == Parsed((c.merkleRoot, (c.bits, c.time)), r) {
      ReadsBoth(DecOptRoot, DecBitsTime, EncOptRoot(c.merkleRoot), t, c.merkleRoot, (c.bits, c.time), r);
    }
    assert Reads(DecRootBits, EncOptRoot(c.merkleRoot) + t, (c.merkleRoot, (c.bits, c.time)));
    Reads33(c.minerPubkey);
    var u := c.minerPubkey + (EncOptRoot(c.merkleRoot) + t);
    forall r ensures DecKeyRoot(u + r) == Parsed((c.minerPubkey, (c.merkleRoot, (c.bits, c.time))), r) {
      ReadsBoth(Dec33, DecRootBits, c.minerPubkey, EncOptRoot(c.merkleRoot) + t, c.minerPubkey,
          (c.merkleRoot, (c.bits, c.time)), r);
    }
    assert Reads(DecKeyRoot, u, (c.minerPubkey, (c.merkleRoot, (c.bits, c.time))));
    ReadsLinks(c.prevShareBlockhash, c.uncles);
    ReadsBoth(DecLinks, DecKeyRoot, c.prevShareBlockhash + EncHashes(c.uncles), u,
              (c.prevShareBlockhash, c.uncles), (c.minerPubkey, (c.merkleRoot, (c.bits, c.time))), rest);
  }

  /** The input of the commitment hash binds every field. */
  lemma CommitmentInjective(a: ShareCommitment, b: ShareCommitment)
    requires UnclesFit(a) && UnclesFit(b) && EncCommitment(a) == EncCommitment(b)
    ensures a == b
  {
    ReadsCommitment(a, []);
    ReadsCommitment(b, []);
  }

  /** The optional root: a flag byte, then the root if there is one. */
  method WriteOptRoot(r: Option<Bytes32>, w: Writer) returns (len: nat)
    modifies w
    ensures w.out == old(w.out) + EncOptRoot(r) && len == |EncOptRoot(r)|
  {
    if r.Some? {
      len := w.Write([1]);
      var n := w.Write(r.value);
      len := len + n;
    } else {
      len := w.Write([0]);
    }
  }

  /** `ShareCommitment::consensus_encode`: the key's 33 bytes are counted by hand, and the total is what was written. */
  method WriteCommitment(c: ShareCommitment, w: Writer) returns (len: nat)
    modifies w
    ensures w.out == old(w.out) + EncCommitment(c) && len == |EncCommitment(c)|
  {
    ghost var before := w.out;
    len := WriteLinks(c.prevShareBlockhash, c.uncles, w);
    WriteKey(c.minerPubkey, w);
    len := len + 33;
    var n := WriteOptRoot(c.merkleRoot, w);
    len := len + n;
    n := WriteBitsTime(c.bits, c.time, w);
    len := len + n;
    Regroup4(before, c.prevShareBlockhash + EncHashes(c.uncles), c.minerPubkey, EncOptRoot(c.merkleRoot),
        EncU32(c.bits) + EncU32(c.time));
  }

  /** `ShareHeader::commitment_hash` hashes these bytes: as the commitment, but the root has no flag byte. */
  function HeaderCommitmentInput(h: WireHeader): Bytes
  {
    h.prevShareBlockhash + EncHashes(h.uncles) + h.minerPubkey + h.merkleRoot + EncU32(h.bits) + EncU32(h.time)
  }

  /** The two hash inputs never coincide, whatever header and commitment are compared. */
  lemma HeaderNeverMatchesCommitment(h: WireHeader, c: ShareCommitment)
    ensures HeaderCommitmentInput(h) != EncCommitment(c)
  {
    HashesLength(h.uncles);
    HashesLength(c.uncles);
    CountLength(|h.uncles|);
    CountLength(|c.uncles|);
    assert |HeaderCommitmentInput(h)| == 105 + |EncHashes(h.uncles)|;
    assert |EncCommitment(c)| == 73 + |EncHashes(c.uncles)| + (if c.merkleRoot.Some? then 33 else 1);
  }
}
