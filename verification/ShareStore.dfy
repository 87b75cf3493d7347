/** `Store::add_share` and the reads of shares: one batch writes a share and every index derived from it. */
module ShareStore {
  import opened Primitives
  import opened Types
  import opened Database
  import opened TransactionStore

  /** Merge `operand` into the list of every key: the shape of the block-index and txid-index loops. */
  function ChildOps(parents: seq<BlockHash>, child: BlockHash): seq<WriteOp> {
    if parents == [] then []
    else ChildOps(parents[..|parents| - 1], child) + [Merge(ChildrenKey(parents[|parents| - 1]), child)]
  }

  function TxBlockOps(txids: seq<Txid>, hash: BlockHash): seq<WriteOp> {
    if txids == [] then []
    else TxBlockOps(txids[..|txids| - 1], hash) + [Merge(TxBlocksKey(txids[|txids| - 1]), hash)]
  }

  function IndexOps(share: ShareBlock): seq<WriteOp> {
    [Put(BlockTxidsKey(share.Hash()), TxidList(Txids(share.transactions)))]
    + TxBlockOps(Txids(share.transactions), share.Hash())
    + [Put(BitcoinTxidsKey(share.Hash()), TxidList(Txids(share.bitcoinTransactions)))]
    + ChildOps(Parents(share.header), share.Hash())
  }

  function RecordOps(share: ShareBlock, height: nat, chainWork: nat): seq<WriteOp> {
    [ Merge(HeightKey(height), share.Hash()),
      Put(MetadataKey(share.Hash()), Metadata(BlockMetadata(Some(height), chainWork))),
      Put(BlockKey(share.Hash()), Share(share.header, Txids(share.transactions), Txids(share.bitcoinTransactions)))]
  }

  function ShareOps(share: ShareBlock, height: nat, chainWork: nat, confirmTxs: bool): seq<WriteOp> {
    TxsOps(share.transactions, confirmTxs) + IndexOps(share) + RecordOps(share, height, chainWork)
  }

  /** `add_txids_to_blocks_index`. */
  method AddTxidsToBlocksIndex(hash: BlockHash, txids: seq<Txid>, batch: WriteBatch)
    modifies batch
    ensures batch.ops == old(batch.ops) + TxBlockOps(txids, hash)
  {
    ghost var before := batch.ops;
    for i := 0 to |txids|
      invariant batch.ops == before + TxBlockOps(txids[..i], hash)
    {
      assert txids[..i + 1][..i] == txids[..i];
      batch.MergeCf(TxBlocksKey(txids[i]), hash);
    }
    assert txids[..|txids|] == txids;
  }

  /** `update_block_index`. */
  method UpdateBlockIndex(prev: BlockHash, next: BlockHash, batch: WriteBatch)
    modifies batch
    ensures batch.ops == old(batch.ops) + [Merge(ChildrenKey(prev), next)]
  {
    batch.MergeCf(ChildrenKey(prev), next);
  }

  /** The block-index part of `add_share`: the parent, then each uncle. */
  method UpdateBlockIndexForParents(header: ShareHeader, hash: BlockHash, batch: WriteBatch)
    modifies batch
    ensures batch.ops == old(batch.ops) + ChildOps(Parents(header), hash)
  {
    ghost var before := batch.ops;
    var prev, uncles := header.prevShareBlockhash, header.uncles;
    UpdateBlockIndex(prev, hash, batch);
    assert [prev] + uncles[..0] == [prev] && [prev][..0] == [];
    for i := 0 to |uncles|
      invariant batch.ops == before + ChildOps([prev] + uncles[..i], hash)
    {
      var parents := [prev] + uncles[..i + 1];
      assert parents[..|parents| - 1] == [prev] + uncles[..i];
      UpdateBlockIndex(uncles[i], hash, batch);
    }
    assert [prev] + uncles[..|uncles|] == Parents(header);
  }

  /** The index part of `add_share`: block to txids and back, block to bitcoin txids, parents to block. */
  method AddIndexes(share: ShareBlock, txids: seq<Txid>, batch: WriteBatch)
    requires txids == Txids(share.transactions)
    modifies batch
    ensures batch.ops == old(batch.ops) + IndexOps(share)
  {
    var hash := share.Hash();
    batch.PutCf(BlockTxidsKey(hash), TxidList(txids));
    AddTxidsToBlocksIndex(hash, txids, batch);
    batch.PutCf(BitcoinTxidsKey(hash), TxidList(Txids(share.bitcoinTransactions)));
    UpdateBlockIndexForParents(share.header, hash, batch);
  }

  /** `add_share`. */
  method AddShare(share: ShareBlock, height: nat, chainWork: nat, confirmTxs: bool, batch: WriteBatch)
    modifies batch
    ensures batch.ops == old(batch.ops) + ShareOps(share, height, chainWork, confirmTxs)
  {
    var metadata := AddSharechainTxs(share.transactions, confirmTxs, batch);
    var txids := seq(|metadata|, i requires 0 <= i < |metadata| => metadata[i].txid);
    assert txids == Txids(share.transactions);
    AddIndexes(share, txids, batch);
    AddRecords(share, txids, height, chainWork, batch);
  }

  /** The last part of `add_share`: the height list, the metadata and the block itself. */
  method AddRecords(share: ShareBlock, txids: seq<Txid>, height: nat, chainWork: nat, batch: WriteBatch)
    requires txids == Txids(share.transactions)
    modifies batch
    ensures batch.ops == old(batch.ops) + RecordOps(share, height, chainWork)
  {
    batch.MergeCf(HeightKey(height), share.Hash());
    batch.PutCf(MetadataKey(share.Hash()), Metadata(BlockMetadata(Some(height), chainWork)));
    batch.PutCf(BlockKey(share.Hash()), Share(share.header, txids, Txids(share.bitcoinTransactions)));
  }

  // ----- which operations a share contributes -----

  lemma {:induction false} ChildOpsAre(parents: seq<BlockHash>, child: BlockHash, op: WriteOp)
    ensures op in ChildOps(parents, child) <==> exists p :: p in parents && op == Merge(ChildrenKey(p), child)
  {
    if parents == [] {
    } else {
      ChildOpsAre(parents[..|parents| - 1], child, op);
      assert parents == parents[..|parents| - 1] + [parents[|parents| - 1]];
    }
  }

  lemma {:induction false} TxBlockOpsAre(txids: seq<Txid>, hash: BlockHash, op: WriteOp)
    ensures op in TxBlockOps(txids, hash) <==> exists t :: t in txids && op == Merge(TxBlocksKey(t), hash)
  {
    if txids == [] {
    } else {
      TxBlockOpsAre(txids[..|txids| - 1], hash, op);
      assert txids == txids[..|txids| - 1] + [txids[|txids| - 1]];
    }
  }

  ghost predicate IsIndexOp(share: ShareBlock, op: WriteOp) {
    || op == Put(BlockTxidsKey(share.Hash()), TxidList(Txids(share.transactions)))
    || op == Put(BitcoinTxidsKey(share.Hash()), TxidList(Txids(share.bitcoinTransactions)))
    || (exists t :: t in Txids(share.transactions) && op == Merge(TxBlocksKey(t), share.Hash()))
    || (exists p :: p in Parents(share.header) && op == Merge(ChildrenKey(p), share.Hash()))
  }

  lemma IndexOpsAre(share: ShareBlock, op: WriteOp)
    ensures op in IndexOps(share) <==> IsIndexOp(share, op)
  {
    TxBlockOpsAre(Txids(share.transactions), share.Hash(), op);
    ChildOpsAre(Parents(share.header), share.Hash(), op);
  }

  lemma ShareOpsAre(share: ShareBlock, height: nat, chainWork: nat, confirmTxs: bool, op: WriteOp)
    ensures op in ShareOps(share, height, chainWork, confirmTxs)
       <==> HasTxOp(share.transactions, confirmTxs, op)
            || IsIndexOp(share, op) || op in RecordOps(share, height, chainWork)
  {
    TxsOpsAre(share.transactions, confirmTxs, op);
    IndexOpsAre(share, op);
  }

  // ----- reading a share back -----

  /** `flat_map` over the ids: transactions that cannot be read are dropped. */
  function GetTxs(db: Db, txids: seq<Txid>): seq<Transaction> {
    if txids == [] then []
    else
      var r := GetTx(db, txids[|txids| - 1]);
      GetTxs(db, txids[..|txids| - 1]) + (if r.Found? then [r.tx] else [])
  }

  /** `get_share`. */
  function GetShare(db: Db, hash: BlockHash): Option<ShareBlock> {
    if BlockKey(hash) in db && db[BlockKey(hash)].Share? then
      Some(ShareBlock(db[BlockKey(hash)].header,
                      GetTxs(db, GetTxidsForBlockhash(db, hash)),
                      GetTxs(db, GetBitcoinTxidsForBlockhash(db, hash))))
    else None
  }

  function StripAll(txs: seq<Transaction>): seq<Transaction> {
    if txs == [] then [] else StripAll(txs[..|txs| - 1]) + [Strip(txs[|txs| - 1])]
  }

  /** The transactions of `txs` whose ids have a stored record. */
  function StoredOnly(db: Db, txs: seq<Transaction>): seq<Transaction> {
    if txs == [] then []
    else StoredOnly(db, txs[..|txs| - 1]) + (if TxKey(ComputeTxid(txs[|txs| - 1])) in db then [txs[|txs| - 1]] else [])
  }

  ghost predicate CountsFit(txs: seq<Transaction>) {
    forall tx :: tx in txs ==> |tx.input| < U32 && |tx.output| < U32
  }

  /** Reading a list of ids returns exactly the stored ones, in order, without witnesses. */
  lemma {:induction false} GetTxsStored(db: Db, txs: seq<Transaction>)
    requires TxInv(db) && CountsFit(txs)
    ensures GetTxs(db, Txids(txs)) == StripAll(StoredOnly(db, txs))
  {
    if txs == [] {
    } else {
      var init, last := txs[..|txs| - 1], txs[|txs| - 1];
      assert last in txs && forall tx :: tx in init ==> tx in txs;
      GetTxsStored(db, init);
      var ids := Txids(txs);
      assert ids[..|ids| - 1] == Txids(init) && ids[|ids| - 1] == ComputeTxid(last);
      if TxKey(ComputeTxid(last)) in db {
        GetTxRoundTrip(db, last);
        var kept := StoredOnly(db, init);
        assert (kept + [last])[..|kept + [last]| - 1] == kept;
      } else {
        GetTxNeverPanics(db, ComputeTxid(last));
        assert StoredOnly(db, init) + [] == StoredOnly(db, init);
      }
    }
  }
}
