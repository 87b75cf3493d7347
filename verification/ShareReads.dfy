/** Exactly when `get_share` returns a share as it was added. */
module ShareReads {
  import opened Types
  import opened Database
  import opened TransactionStore
  import opened ShareStore
  import opened Runs
  import opened IndexTheorems
  import opened TxTheorems

  /** A transaction the store can keep whole: no witnesses, and counts that fit 32 bits. */
  predicate Storable(tx: Transaction) {
    Strip(tx) == tx && |tx.input| < U32 && |tx.output| < U32
  }

  lemma GetTxWholeIff(db: Db, tx: Transaction)
    requires TxInv(db)
    ensures GetTx(db, ComputeTxid(tx)) == Found(tx) <==> TxKey(ComputeTxid(tx)) in db && Storable(tx)
  {
    var t := ComputeTxid(tx);
    if TxKey(t) in db {
      GetTxRoundTrip(db, tx);
      TruncatedLength(t.tx.input);
      TruncatedLength(t.tx.output);
      ReadPresent(db, t, |t.tx.input| % U32, |t.tx.output| % U32);
    } else {
      GetTxNeverPanics(db, t);
    }
  }

  lemma {:induction false} GetTxsShorter(db: Db, txids: seq<Txid>)
    ensures |GetTxs(db, txids)| <= |txids|
  {
    if txids == [] {
    } else {
      GetTxsShorter(db, txids[..|txids| - 1]);
    }
  }

  lemma {:induction false} GetTxsWholeIff(db: Db, txs: seq<Transaction>)
    ensures GetTxs(db, Txids(txs)) == txs <==> forall tx :: tx in txs ==> GetTx(db, ComputeTxid(tx)) == Found(tx)
  {
    if txs == [] {
    } else {
      var init, last := txs[..|txs| - 1], txs[|txs| - 1];
      var ids := Txids(txs);
      assert txs == init + [last];
      assert ids[..|ids| - 1] == Txids(init) && ids[|ids| - 1] == ComputeTxid(last);
      GetTxsWholeIff(db, init);
      GetTxsShorter(db, Txids(init));
      var r := GetTx(db, ComputeTxid(last));
      if r.Found? {
        PushEqualIff(GetTxs(db, Txids(init)), init, r.tx, last);
      }
    }
  }

  lemma PushEqualIff<T>(s: seq<T>, t: seq<T>, x: T, y: T)
    requires |s| <= |t|
    ensures s + [x] == t + [y] <==> s == t && x == y
  {
    if s + [x] == t + [y] {
      assert (s + [x])[..|s|] == s && (t + [y])[..|t|] == t;
      assert (s + [x])[|s|] == x && (t + [y])[|t|] == y;
    }
  }

  /**
    After every run a share reads back with the transactions it was last added with exactly when the store can keep
    each of them whole, and with its bitcoin transactions exactly when besides some call stored each of them.
   */
  lemma ShareWholeIff(run: Run, b: BlockHash)
    requires Added(Calls(run), b)
    ensures var db, last := After(map[], run), LastAdd(Calls(run), b);
            && last.Some? && last.value.AddShareCall? && GetShare(db, b).Some?
            && var (share, read) := (last.value.share, GetShare(db, b).value);
            && read.header == share.header
            && (read.transactions == share.transactions <==> forall tx :: tx in share.transactions ==> Storable(tx))
            && (read.bitcoinTransactions == share.bitcoinTransactions <==>
                forall tx :: tx in share.bitcoinTransactions ==> Storable(tx) && Stores(Calls(run), ComputeTxid(tx)))
  {
    var db, last := After(map[], run), LastAdd(Calls(run), b);
    LastAddFacts(Calls(run), b);
    RunRecord(run, BlockKey(b));
    RunRecord(run, BlockTxidsKey(b));
    RunRecord(run, BitcoinTxidsKey(b));
    var share := last.value.share;
    WholeIff(run, share.transactions);
    WholeIff(run, share.bitcoinTransactions);
    forall tx | tx in share.transactions ensures Stores(Calls(run), ComputeTxid(tx)) {
      assert tx in CallTxs(last.value);
    }
  }

  lemma WholeIff(run: Run, txs: seq<Transaction>)
    ensures GetTxs(After(map[], run), Txids(txs)) == txs <==>
            forall tx :: tx in txs ==> Storable(tx) && Stores(Calls(run), ComputeTxid(tx))
  {
    var db := After(map[], run);
    RunTxInv(run);
    GetTxsWholeIff(db, txs);
    forall tx | tx in txs
      ensures GetTx(db, ComputeTxid(tx)) == Found(tx) <==> Storable(tx) && Stores(Calls(run), ComputeTxid(tx))
    {
      GetTxWholeIff(db, tx);
      StoredIff(run, ComputeTxid(tx));
    }
  }

  /** A share with a bitcoin transaction that is not also one of its own: added alone, it does not come back. */
  lemma BitcoinTxDropped(share: ShareBlock, x: Transaction, height: nat, work: nat, confirmTxs: bool)
    requires x in share.bitcoinTransactions
    requires forall tx :: tx in share.transactions ==> ComputeTxid(tx) != ComputeTxid(x)
    ensures var read := GetShare(After(map[], [[AddShareCall(share, height, work, confirmTxs)]]), share.Hash());
            read.Some? && read.value.bitcoinTransactions != share.bitcoinTransactions
  {
    var call := AddShareCall(share, height, work, confirmTxs);
    var run: Run := [[call]];
    assert Calls(run[..0]) + run[0] == [call];
    assert Calls(run) == [call];
    assert call in Calls(run) && Adds(call, share.Hash());
    ShareWholeIff(run, share.Hash());
    assert !Stores(Calls(run), ComputeTxid(x));
  }
}
