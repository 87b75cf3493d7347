/** What the derived indexes say about the set of added shares, after every run. */
module IndexTheorems {
  import opened Primitives
  import opened Types
  import opened Graph
  import opened Database
  import opened TransactionStore
  import opened ShareStore
  import opened Runs

  /** `call` adds the share with hash `b`. */
  predicate Adds(call: Call, b: BlockHash) {
    call.AddShareCall? && call.share.Hash() == b
  }

  ghost predicate Added(calls: seq<Call>, b: BlockHash) {
    exists c :: c in calls && Adds(c, b)
  }

  /** The last call that added `b`. */
  function LastAdd(calls: seq<Call>, b: BlockHash): Option<Call> {
    if calls == [] then None
    else if Adds(calls[|calls| - 1], b) then Some(calls[|calls| - 1])
    else LastAdd(calls[..|calls| - 1], b)
  }

  lemma {:induction false} LastAddFacts(calls: seq<Call>, b: BlockHash)
    ensures LastAdd(calls, b).Some? <==> Added(calls, b)
    ensures LastAdd(calls, b).Some? ==> LastAdd(calls, b).value in calls && Adds(LastAdd(calls, b).value, b)
  {
    if calls == [] {
    } else {
      LastAddFacts(calls[..|calls| - 1], b);
      assert calls == calls[..|calls| - 1] + [calls[|calls| - 1]];
    }
  }

  // ----- children -----

  /** The index lists `c` under `p` exactly when `c` was added and names `p` as parent or uncle. */
  lemma ChildrenAgree(run: Run, p: BlockHash, c: BlockHash)
    ensures c in ListAt(After(map[], run), ChildrenKey(p)) <==>
              Added(Calls(run), c) && c.HashOf? && p in Parents(c.header)
  {
    RunList(run, ChildrenKey(p));
    if call :| call in Calls(run) && Adds(call, c) {
      assert p in Parents(c.header) ==> CallMerges(call, ChildrenKey(p), c);
    }
  }

  /** The block index of a store. */
  function BlockIndexOf(db: Db): Index<BlockHash> {
    map k | k in db && k.ChildrenKey? && db[k].Hashes? :: k.hash := db[k].hashes
  }

  lemma BlockIndexEntry(db: Db, p: BlockHash)
    ensures p in BlockIndexOf(db) <==> GetChildren(db, p).Some?
    ensures p in BlockIndexOf(db) ==> BlockIndexOf(db)[p] == GetChildren(db, p).value
  {
    if GetChildren(db, p).Some? {
      assert ChildrenKey(p) in db;
    }
  }

  lemma EdgesGoDeeper(run: Run, a: BlockHash, b: BlockHash)
    requires Edge(BlockIndexOf(After(map[], run)), a, b)
    ensures Depth(a) < Depth(b)
  {
    BlockIndexEntry(After(map[], run), a);
    ChildrenAgree(run, a, b);
    ParentShallower(b.header, a);
  }

  lemma {:induction false} PathsGoDeeper(run: Run, p: seq<BlockHash>)
    requires IsPath(BlockIndexOf(After(map[], run)), p) && |p| >= 2
    ensures Depth(p[0]) < Depth(p[|p| - 1])
  {
    EdgesGoDeeper(run, p[0], p[1]);
    if |p| > 2 {
      PathsGoDeeper(run, p[1..]);
    }
  }

  /** No run builds a cyclic block index, because a header's hash covers the hashes of its parents. */
  lemma RunAcyclic(run: Run, root: BlockHash)
    ensures AcyclicFrom(BlockIndexOf(After(map[], run)), root)
  {
    forall p | IsPath(BlockIndexOf(After(map[], run)), p) && |p| >= 2 ensures p[0] != p[|p| - 1] {
      PathsGoDeeper(run, p);
    }
  }

  // ----- records written once per share -----

  predicate IsRecordKey(key: Key) {
    key.MetadataKey? || key.BlockKey? || key.BlockTxidsKey? || key.BitcoinTxidsKey?
  }

  /** What adding the share leaves under a record key of its own hash. */
  function ShareValue(share: ShareBlock, height: nat, work: nat, key: Key): Value
    requires IsRecordKey(key)
  {
    match key
    case MetadataKey(_) => Metadata(BlockMetadata(Some(height), work))
    case BlockKey(_) => Share(share.header, Txids(share.transactions), Txids(share.bitcoinTransactions))
    case BlockTxidsKey(_) => TxidList(Txids(share.transactions))
    case BitcoinTxidsKey(_) => TxidList(Txids(share.bitcoinTransactions))
  }

  lemma ShareRecordPut(share: ShareBlock, height: nat, work: nat, confirmTxs: bool, key: Key, v: Value)
    requires IsRecordKey(key)
    ensures Put(key, v) in ShareOps(share, height, work, confirmTxs)
       <==> key.hash == share.Hash() && v == ShareValue(share, height, work, key)
  {
    ShareOpsAre(share, height, work, confirmTxs, Put(key, v));
    if HasTxOp(share.transactions, confirmTxs, Put(key, v)) {
      TxOpKind(share.transactions, confirmTxs, Put(key, v));
    }
    var r := RecordOps(share, height, work);
    assert Put(key, v) in r <==> Put(key, v) == r[1] || Put(key, v) == r[2];
  }

  lemma CallPutRecord(call: Call, key: Key)
    requires IsRecordKey(key)
    ensures CallPut(call, key)
         == if Adds(call, key.hash) then Some(ShareValue(call.share, call.height, call.chainWork, key)) else None
  {
    var ops := CallOps(map[], call);
    LastPutFacts(ops, key);
    match call
    case AddShareCall(share, height, work, confirmTxs) =>
      ShareRecordPut(share, height, work, confirmTxs, key, ShareValue(share, height, work, key));
      if LastPut(ops, key).Some? {
        ShareRecordPut(share, height, work, confirmTxs, key, LastPut(ops, key).value);
      }
    case AddTxsCall(txs, onMainChain) =>
      if LastPut(ops, key).Some? {
        TxsOpsAre(txs, onMainChain, Put(key, LastPut(ops, key).value));
        TxOpKind(txs, onMainChain, Put(key, LastPut(ops, key).value));
      }
    case _ =>
  }

  lemma {:induction false} RunPutRecord(calls: seq<Call>, key: Key)
    requires IsRecordKey(key)
    ensures LastAdd(calls, key.hash).Some? ==> LastAdd(calls, key.hash).value.AddShareCall?
    ensures RunPut(calls, key) == match LastAdd(calls, key.hash)
                                  case Some(c) => Some(ShareValue(c.share, c.height, c.chainWork, key))
                                  case None => None
  {
    if calls == [] {
    } else {
      RunPutRecord(calls[..|calls| - 1], key);
      CallPutRecord(calls[|calls| - 1], key);
    }
  }

  /** After any run the records of a block are those of the last call that added it. */
  lemma RunRecord(run: Run, key: Key)
    requires IsRecordKey(key)
    ensures var db, last := After(map[], run), LastAdd(Calls(run), key.hash);
            && (key in db <==> Added(Calls(run), key.hash))
            && (last.Some? ==> last.value.AddShareCall? && key in db
                               && db[key] == ShareValue(last.value.share, last.value.height, last.value.chainWork, key))
  {
    RunValue(run, key);
    RunPutRecord(Calls(run), key);
    LastAddFacts(Calls(run), key.hash);
  }

  // ----- heights -----

  function MetadataHeight(db: Db, b: BlockHash): Option<nat> {
    var m := GetMetadata(db, b);
    if m.Some? then m.value.expectedHeight else None
  }

  ghost predicate HeightIndexAgrees(db: Db) {
    forall b, h: nat :: b in GetBlockhashesForHeight(db, h) <==> MetadataHeight(db, b) == Some(h)
  }

  /** Every share was always added at the height of its last addition. */
  ghost predicate HeightsConsistent(calls: seq<Call>) {
    forall c :: c in calls && c.AddShareCall? ==> HeightKept(calls, c)
  }

  lemma MetadataHeightIs(run: Run, b: BlockHash)
    ensures var last := LastAdd(Calls(run), b);
            MetadataHeight(After(map[], run), b) == if last.Some? && last.value.AddShareCall?
                then Some(last.value.height) else None
  {
    RunRecord(run, MetadataKey(b));
    LastAddFacts(Calls(run), b);
  }

  lemma HeightListIs(run: Run, b: BlockHash, h: nat)
    ensures b in GetBlockhashesForHeight(After(map[], run), h) <==>
              exists c :: c in Calls(run) && Adds(c, b) && c.height == h
  {
    RunList(run, HeightKey(h));
    if b in GetBlockhashesForHeight(After(map[], run), h) {
      var c :| c in Calls(run) && CallMerges(c, HeightKey(h), b);
      assert Adds(c, b);
    }
    if c :| c in Calls(run) && Adds(c, b) && c.height == h {
      assert CallMerges(c, HeightKey(h), b);
    }
  }

  /** The height of `c` is the height of the last addition of its share. */
  ghost predicate HeightKept(calls: seq<Call>, c: Call)
    requires c.AddShareCall?
  {
    var last := LastAdd(calls, c.share.Hash());
    last.Some? && last.value.AddShareCall? && last.value.height == c.height
  }

  lemma HeightKeptIff(run: Run, c: Call)
    requires c in Calls(run) && c.AddShareCall?
    ensures c.share.Hash() in GetBlockhashesForHeight(After(map[], run), c.height)
    ensures HeightKept(Calls(run), c) <==> MetadataHeight(After(map[], run), c.share.Hash()) == Some(c.height)
  {
    assert Adds(c, c.share.Hash());
    LastAddFacts(Calls(run), c.share.Hash());
    HeightListIs(run, c.share.Hash(), c.height);
    MetadataHeightIs(run, c.share.Hash());
  }

  lemma HeightIndexAt(run: Run, b: BlockHash, h: nat)
    requires HeightsConsistent(Calls(run))
    ensures b in GetBlockhashesForHeight(After(map[], run), h) <==> MetadataHeight(After(map[], run), b) == Some(h)
  {
    HeightListIs(run, b, h);
    MetadataHeightIs(run, b);
    LastAddFacts(Calls(run), b);
    if b in GetBlockhashesForHeight(After(map[], run), h) {
      var c :| c in Calls(run) && Adds(c, b) && c.height == h;
      assert HeightKept(Calls(run), c);
    }
  }

  /** Height lists and recorded heights agree for every block and height exactly when no share changed height. */
  lemma HeightIndexIff(run: Run)
    ensures HeightIndexAgrees(After(map[], run)) <==> HeightsConsistent(Calls(run))
  {
    var db, calls := After(map[], run), Calls(run);
    if HeightIndexAgrees(db) {
      forall c | c in calls && c.AddShareCall? ensures HeightKept(calls, c) {
        HeightKeptIff(run, c);
      }
    }
    if HeightsConsistent(calls) {
      forall b, h: nat ensures b in GetBlockhashesForHeight(db, h) <==> MetadataHeight(db, b) == Some(h) {
        HeightIndexAt(run, b, h);
      }
    }
  }

  // ----- block to txids and back -----

  ghost predicate TxIndexesInverse(db: Db) {
    forall b, t :: b in GetBlockhashesForTxid(db, t) <==> t in GetTxidsForBlockhash(db, b)
  }

  /** No later addition of a share dropped a transaction of an earlier one. */
  ghost predicate TxidsKept(calls: seq<Call>) {
    forall c, t :: c in calls && c.AddShareCall? && t in Txids(c.share.transactions) ==>
      LastAdd(calls, c.share.Hash()).Some? && LastAdd(calls, c.share.Hash()).value.AddShareCall?
      && t in Txids(LastAdd(calls, c.share.Hash()).value.share.transactions)
  }

  lemma BlocksOfTxid(run: Run, b: BlockHash, t: Txid)
    ensures b in GetBlockhashesForTxid(After(map[], run), t)
       <==> exists c :: c in Calls(run) && Adds(c, b) && t in Txids(c.share.transactions)
  {
    RunList(run, TxBlocksKey(t));
    if b in GetBlockhashesForTxid(After(map[], run), t) {
      var c :| c in Calls(run) && CallMerges(c, TxBlocksKey(t), b);
      assert Adds(c, b);
    }
    if c :| c in Calls(run) && Adds(c, b) && t in Txids(c.share.transactions) {
      assert CallMerges(c, TxBlocksKey(t), b);
    }
  }

  lemma TxidsOfBlock(run: Run, b: BlockHash)
    ensures var last := LastAdd(Calls(run), b);
            GetTxidsForBlockhash(After(map[], run), b)
            == if last.Some? && last.value.AddShareCall? then Txids(last.value.share.transactions) else []
  {
    RunRecord(run, BlockTxidsKey(b));
    LastAddFacts(Calls(run), b);
  }

  /** The two transaction indexes are inverse exactly when re-additions keep the transactions of a share. */
  lemma TxIndexesInverseIff(run: Run)
    ensures TxIndexesInverse(After(map[], run)) <==> TxidsKept(Calls(run))
  {
    var db, calls := After(map[], run), Calls(run);
    if TxIndexesInverse(db) {
      forall c, t | c in calls && c.AddShareCall? && t in Txids(c.share.transactions)
        ensures LastAdd(calls, c.share.Hash()).Some? && LastAdd(calls, c.share.Hash()).value.AddShareCall?
                && t in Txids(LastAdd(calls, c.share.Hash()).value.share.transactions)
      {
        var b := c.share.Hash();
        assert Adds(c, b);
        LastAddFacts(calls, b);
        BlocksOfTxid(run, b, t);
        TxidsOfBlock(run, b);
      }
    }
    if TxidsKept(calls) {
      forall b, t ensures b in GetBlockhashesForTxid(db, t) <==> t in GetTxidsForBlockhash(db, b) {
        BlocksOfTxid(run, b, t);
        TxidsOfBlock(run, b);
        LastAddFacts(calls, b);
      }
    }
  }

  // ----- where the indexes disagree -----

  lemma TwoCalls(a: Call, b: Call)
    ensures Calls([[a], [b]]) == [a, b]
  {
    var run: Run := [[a], [b]];
    assert run[..1] == [[a]] && run[..1][..0] == [];
    assert Calls(run[..1]) == [a];
  }

  /** One share added at two heights is listed at both and recorded at one. */
  lemma TwoHeightsDisagree(share: ShareBlock, h: nat, h': nat, work: nat, confirmTxs: bool)
    requires h != h'
    ensures var run := [[AddShareCall(share, h, work, confirmTxs)], [AddShareCall(share, h', work, confirmTxs)]];
            !HeightIndexAgrees(After(map[], run))
  {
    var first, second := AddShareCall(share, h, work, confirmTxs), AddShareCall(share, h', work, confirmTxs);
    var run: Run := [[first], [second]];
    TwoCalls(first, second);
    assert first in Calls(run) && !HeightKept(Calls(run), first);
    HeightIndexIff(run);
  }

  /** A share re-added without its transactions stays listed for them. */
  lemma DroppedTxDisagrees(share: ShareBlock, tx: Transaction, h: nat, work: nat, confirmTxs: bool)
    requires tx in share.transactions
    ensures var bare := share.(transactions := []);
            var run := [[AddShareCall(share, h, work, confirmTxs)], [AddShareCall(bare, h, work, confirmTxs)]];
            !TxIndexesInverse(After(map[], run))
  {
    var bare := share.(transactions := []);
    var first, second := AddShareCall(share, h, work, confirmTxs), AddShareCall(bare, h, work, confirmTxs);
    var run: Run := [[first], [second]];
    TwoCalls(first, second);
    DropIsNotKept(first, second, tx);
    TxIndexesInverseIff(run);
  }

  lemma DropIsNotKept(first: Call, second: Call, tx: Transaction)
    requires first.AddShareCall? && second.AddShareCall? && first.share.Hash() == second.share.Hash()
    requires tx in first.share.transactions && second.share.transactions == []
    ensures !TxidsKept([first, second])
  {
    var i :| 0 <= i < |first.share.transactions| && first.share.transactions[i] == tx;
    var t := Txids(first.share.transactions)[i];
    assert t in Txids(first.share.transactions) && t !in Txids(second.share.transactions);
    assert LastAdd([first, second], first.share.Hash()) == Some(second);
    assert first in [first, second];
  }

  // ----- the nephews index -----

  /** Some call entered `nephew` as one that names `uncle`. */
  ghost predicate EnteredAs(calls: seq<Call>, uncle: BlockHash, nephew: BlockHash) {
    AddToUnclesIndexCall(uncle, nephew) in calls
  }

  lemma NephewMerge(call: Call, uncle: BlockHash, nephew: BlockHash)
    ensures CallMerges(call, NephewsKey(uncle), nephew) <==> call == AddToUnclesIndexCall(uncle, nephew)
  {
  }

  lemma NephewsAre(run: Run, uncle: BlockHash, nephew: BlockHash)
    ensures nephew in ListAt(After(map[], run), NephewsKey(uncle)) <==> EnteredAs(Calls(run), uncle, nephew)
  {
    RunList(run, NephewsKey(uncle));
    forall c: Call ensures CallMerges(c, NephewsKey(uncle), nephew) <==> c == AddToUnclesIndexCall(uncle, nephew) {
      NephewMerge(c, uncle, nephew);
    }
  }

  /** After every run a block counts as an uncle exactly when some call entered it as one. */
  lemma AlreadyUncleIff(run: Run, uncle: BlockHash)
    ensures IsAlreadyUncle(After(map[], run), uncle) <==> exists nephew :: EnteredAs(Calls(run), uncle, nephew)
  {
    var db := After(map[], run);
    RunList(run, NephewsKey(uncle));
    var nephews := ListAt(db, NephewsKey(uncle));
    if nephews != [] {
      NephewsAre(run, uncle, nephews[0]);
      assert EnteredAs(Calls(run), uncle, nephews[0]);
    } else if nephew :| EnteredAs(Calls(run), uncle, nephew) {
      NephewsAre(run, uncle, nephew);
    }
    assert IsAlreadyUncle(db, uncle) <==> nephews != [];
  }
}
