/**
  The values of the share chain.

  A hash is modelled by what it was computed from, which makes it collision free and nothing more:
  `HashOf(h)` is the hash of header `h`, `RawHash` is any 32-byte value that is no header's hash
  (the all-zero hash of genesis's parent, or a hash a peer made up).
 */
module Types {
  const U32: nat := 0x1_0000_0000

  datatype BlockHash = RawHash(id: nat) | HashOf(header: ShareHeader)

  /** Share header; the fields the store never looks into are opaque numbers. */
  datatype ShareHeader = ShareHeader(
    prevShareBlockhash: BlockHash,
    uncles: seq<BlockHash>,
    minerPubkey: nat,
    merkleRoot: nat,
    bitcoinHeader: nat,
    bits: nat,
    time: nat)

  const ALL_ZEROS := RawHash(0)

  /** The most uncles a share may name. */
  const MAX_UNCLES: nat := 3

  /** The headers of the stored shares, by block hash. */
  type Headers = map<BlockHash, ShareHeader>

  /** Transaction id: the hash of the witness-free transaction. */
  datatype Txid = RawTxid(id: nat) | TxidOf(tx: Transaction)

  datatype OutPoint = OutPoint(txid: Txid, vout: nat)

  datatype TxIn = TxIn(previousOutput: OutPoint, scriptSig: nat, sequence: nat, witnessStack: seq<nat>)

  datatype TxOut = TxOut(value: nat, scriptPubkey: nat)

  datatype Transaction = Transaction(version: int, lockTime: nat, input: seq<TxIn>, output: seq<TxOut>)

  /** What the consensus encoding of a single input keeps: everything but the witness. */
  function StripInput(i: TxIn): TxIn {
    i.(witnessStack := [])
  }

  function StripInputs(s: seq<TxIn>): (r: seq<TxIn>)
    ensures |r| == |s| && forall i :: 0 <= i < |s| ==> r[i] == StripInput(s[i])
  {
    if s == [] then [] else StripInputs(s[..|s| - 1]) + [StripInput(s[|s| - 1])]
  }

  function Strip(tx: Transaction): Transaction {
    tx.(input := StripInputs(tx.input))
  }

  function ComputeTxid(tx: Transaction): Txid {
    TxidOf(Strip(tx))
  }

  function Txids(txs: seq<Transaction>): (r: seq<Txid>)
    ensures |r| == |txs| && forall i :: 0 <= i < |txs| ==> r[i] == ComputeTxid(txs[i])
  {
    if txs == [] then [] else Txids(txs[..|txs| - 1]) + [ComputeTxid(txs[|txs| - 1])]
  }

  /** Share block: header, share chain transactions and bitcoin transactions. */
  datatype ShareBlock = ShareBlock(
    header: ShareHeader,
    transactions: seq<Transaction>,
    bitcoinTransactions: seq<Transaction>)
  {
    function Hash(): BlockHash {
      HashOf(header)
    }
  }

  /** The parents a block is linked to in the block index: its previous share, then its uncles. */
  function Parents(h: ShareHeader): seq<BlockHash> {
    [h.prevShareBlockhash] + h.uncles
  }

  /** How many headers a hash is nested over. A header holds its parents' hashes, so links go strictly down. */
  ghost function Depth(b: BlockHash): nat
    decreases b, 1
  {
    match b
    case RawHash(_) => 0
    case HashOf(h) => 1 + Depth(h.prevShareBlockhash) + Depths(h.uncles)
  }

  ghost function Depths(bs: seq<BlockHash>): nat
    decreases bs, 0
  {
    if bs == [] then 0 else Depth(bs[0]) + Depths(bs[1..])
  }

  lemma {:induction false} DepthsBound(bs: seq<BlockHash>, b: BlockHash)
    requires b in bs
    ensures Depth(b) <= Depths(bs)
  {
    if b != bs[0] {
      DepthsBound(bs[1..], b);
    }
  }

  lemma ParentShallower(h: ShareHeader, p: BlockHash)
    requires p in Parents(h)
    ensures Depth(p) < Depth(HashOf(h))
  {
    if p in h.uncles {
      DepthsBound(h.uncles, p);
    }
  }
}
