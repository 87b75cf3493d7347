/** The store object: the committed database plus the in-memory genesis, tip and tip set, and how they are reloaded. */
module ChainState {
  import opened Primitives
  import opened Types
  import opened Graph
  import opened LoadChain
  import opened Database
  import opened ShareStore
  import opened Organise
  import opened Runs
  import opened IndexTheorems

  function ChainWork(db: Db, b: BlockHash): nat {
    var m := GetMetadata(db, b);
    if m.Some? then m.value.chainWork else 0
  }

  /** The reachable blocks with no children entry. */
  ghost predicate IsTip(db: Db, genesis: BlockHash, b: BlockHash) {
    Reachable(BlockIndexOf(db), genesis, b) && b !in BlockIndexOf(db)
  }

  /** How reloading can end: done, a tip without metadata, or the panic on an empty tip set. */
  datatype Reload = Reloaded | MissingMetadata | NoTips

  class Store {
    var db: Db
    var genesisBlockhash: Option<BlockHash>
    var chainTip: BlockHash
    var tips: set<BlockHash>

    constructor ()
      ensures db == map[] && genesisBlockhash == None && chainTip == ALL_ZEROS && tips == {}
    {
      db := map[];
      genesisBlockhash := None;
      chainTip := ALL_ZEROS;
      tips := {};
    }

    method CommitBatch(batch: WriteBatch)
      modifies this`db
      ensures db == Commit(old(db), batch.ops)
    {
      db := Commit(db, batch.ops);
    }

    /** `setup_genesis`; the batch is still to be committed. */
    method SetupGenesis(genesis: ShareBlock, genesisWork: nat, batch: WriteBatch)
      modifies this`genesisBlockhash, this`tips, this`chainTip, batch
      ensures batch.ops == old(batch.ops) + ShareOps(genesis, 0, genesisWork, true) + ConfirmOps(db, genesis.Hash(), 0)
      ensures genesisBlockhash == Some(genesis.Hash()) && chainTip == genesis.Hash() && tips == old(tips)
              + {genesis.Hash()}
    {
      var hash := genesis.Hash();
      AddShare(genesis, 0, genesisWork, true, batch);
      genesisBlockhash := Some(hash);
      MakeConfirmed(db, hash, 0, batch);
      tips := tips + {hash};
      chainTip := hash;
    }

    /** `get_total_work`. */
    method GetTotalWork() returns (r: Result<nat>)
      ensures r.Ok? <==> GetMetadata(db, chainTip).Some?
      ensures r.Ok? ==> r.value == ChainWork(db, chainTip)
    {
      var m := GetMetadata(db, chainTip);
      r := if m.Some? then Ok(m.value.chainWork) else Err;
    }

    /** `init_chain_state_from_store`: reload the tip set and pick a tip of maximal work. */
    method InitChainStateFromStore(genesisHash: BlockHash) returns (r: Reload)
      requires AcyclicFrom(BlockIndexOf(db), genesisHash)
      modifies this`genesisBlockhash, this`tips, this`chainTip
      ensures genesisBlockhash == Some(genesisHash)
      ensures r.MissingMetadata? <==> exists t :: IsTip(db, genesisHash, t) && GetMetadata(db, t).None?
      ensures r.NoTips? <==> forall t :: !IsTip(db, genesisHash, t)
      ensures !r.Reloaded? ==> tips == old(tips) && chainTip == old(chainTip)
      ensures r.Reloaded? ==> forall t :: t in tips <==> IsTip(db, genesisHash, t)
      ensures r.Reloaded? ==> chainTip in tips && forall t :: t in tips ==> ChainWork(db, t) <= ChainWork(db, chainTip)
    {
      genesisBlockhash := Some(genesisHash);
      var chain, loaded := LoadChain.LoadChain(BlockIndexOf(db), genesisHash);
      assert forall t :: t in loaded <==> IsTip(db, genesisHash, t);
      if exists t :: t in loaded && GetMetadata(db, t).None? {
        return MissingMetadata;
      }
      if loaded == {} {
        return NoTips;
      }
      var tip := HeaviestTip(db, loaded);
      chainTip := tip;
      tips := loaded;
      return Reloaded;
    }
  }

  /** `max_by_key` on chain work over a hash set, whose iteration order is arbitrary. */
  method HeaviestTip(db: Db, tips: set<BlockHash>) returns (tip: BlockHash)
    requires tips != {}
    ensures tip in tips && forall t :: t in tips ==> ChainWork(db, t) <= ChainWork(db, tip)
  {
    tip :| tip in tips;
    var rest := tips - {tip};
    while rest != {}
      invariant rest <= tips && tip in tips
      invariant forall t :: t in tips - rest ==> ChainWork(db, t) <= ChainWork(db, tip)
      decreases |rest|
    {
      var t :| t in rest;
      rest := rest - {t};
      if ChainWork(db, t) >= ChainWork(db, tip) {
        tip := t;
      }
    }
    assert tips - rest == tips;
  }

  // ----- the tip of maximal work has the maximal work of the whole chain -----

  /** Chain work never decreases along an index edge reachable from `root`. */
  ghost predicate WorkGrows(db: Db, root: BlockHash) {
    forall a, b :: Reachable(BlockIndexOf(db), root, a) && Edge(BlockIndexOf(db), a, b) ==>
        ChainWork(db, a) <= ChainWork(db, b)
  }

  ghost predicate NoEmptyEntry(g: BlockIndex) {
    forall b :: b in g ==> g[b] != []
  }

  /** From every reachable block some tip can be reached, and its work is at least as large. */
  lemma {:induction false} TipAbove(db: Db, root: BlockHash, rank: map<BlockHash, nat>, b: BlockHash)
    returns (tip: BlockHash)
    requires Ranked(BlockIndexOf(db), ReachableKeys(BlockIndexOf(db), root), rank)
    requires NoEmptyEntry(BlockIndexOf(db)) && Reachable(BlockIndexOf(db), root, b)
    ensures IsTip(db, root, tip)
    ensures WorkGrows(db, root) ==> ChainWork(db, b) <= ChainWork(db, tip)
    decreases if b in rank then rank[b] + 1 else 0
  {
    var g := BlockIndexOf(db);
    if b !in g {
      tip := b;
    } else {
      var c := g[b][0];
      assert Edge(g, b, c);
      ReachableStep(g, root, b, c);
      tip := TipAbove(db, root, rank, c);
    }
  }

  /** On an acyclic index without empty entries there is a tip, so reloading cannot panic. */
  lemma TipExists(db: Db, root: BlockHash) returns (tip: BlockHash)
    requires AcyclicFrom(BlockIndexOf(db), root) && NoEmptyEntry(BlockIndexOf(db))
    ensures IsTip(db, root, tip)
  {
    var rank := RankExists(BlockIndexOf(db), root, ReachableKeys(BlockIndexOf(db), root));
    ReachableSelf(BlockIndexOf(db), root);
    tip := TipAbove(db, root, rank, root);
  }

  /** If work never decreases along edges, a tip of maximal work bounds every reachable block. */
  lemma TipWorkIsMaximal(db: Db, root: BlockHash, tip: BlockHash, b: BlockHash)
    requires AcyclicFrom(BlockIndexOf(db), root) && NoEmptyEntry(BlockIndexOf(db)) && WorkGrows(db, root)
    requires forall t :: IsTip(db, root, t) ==> ChainWork(db, t) <= ChainWork(db, tip)
    requires Reachable(BlockIndexOf(db), root, b)
    ensures ChainWork(db, b) <= ChainWork(db, tip)
  {
    var rank := RankExists(BlockIndexOf(db), root, ReachableKeys(BlockIndexOf(db), root));
    var above := TipAbove(db, root, rank, b);
  }

  // ----- stores built by runs -----

  lemma RunNoEmptyEntry(run: Run)
    ensures NoEmptyEntry(BlockIndexOf(After(map[], run)))
  {
    var db := After(map[], run);
    forall b | b in BlockIndexOf(db) ensures BlockIndexOf(db)[b] != [] {
      BlockIndexEntry(db, b);
      RunList(run, ChildrenKey(b));
    }
  }

  lemma AddedHasMetadata(run: Run, b: BlockHash)
    requires Added(Calls(run), b)
    ensures GetMetadata(After(map[], run), b).Some?
  {
    RunRecord(run, MetadataKey(b));
    LastAddFacts(Calls(run), b);
  }

  lemma ChildIsAdded(run: Run, a: BlockHash, b: BlockHash)
    requires Edge(BlockIndexOf(After(map[], run)), a, b)
    ensures Added(Calls(run), b)
  {
    BlockIndexEntry(After(map[], run), a);
    ChildrenAgree(run, a, b);
  }

  lemma ReachableIsAdded(run: Run, genesis: BlockHash, b: BlockHash)
    requires Added(Calls(run), genesis) && Reachable(BlockIndexOf(After(map[], run)), genesis, b)
    ensures Added(Calls(run), b)
  {
    var p :| PathFromTo(BlockIndexOf(After(map[], run)), p, genesis, b);
    if |p| > 1 {
      assert p[|p| - 2 + 1] == b;
      ChildIsAdded(run, p[|p| - 2], b);
    }
  }

  /**
    Reloading any store that a run built and that holds genesis succeeds; where work never decreases along
    edges the reloaded total work is the largest chain work of any block reachable from genesis.
   */
  method ReloadAfterRun(store: Store, ghost run: Run, genesis: BlockHash) returns (work: nat)
    requires store.db == After(map[], run) && Added(Calls(run), genesis)
    modifies store
    ensures store.db == old(store.db)
    ensures forall t :: t in store.tips <==> IsTip(store.db, genesis, t)
    ensures store.chainTip in store.tips && work == ChainWork(store.db, store.chainTip)
    ensures forall t :: t in store.tips ==> ChainWork(store.db, t) <= work
    ensures WorkGrows(store.db, genesis) ==>
              forall b :: Reachable(BlockIndexOf(store.db), genesis, b) ==> ChainWork(store.db, b) <= work
  {
    RunAcyclic(run, genesis);
    RunNoEmptyEntry(run);
    ghost var someTip := TipExists(store.db, genesis);
    forall t | IsTip(store.db, genesis, t) ensures GetMetadata(store.db, t).Some? {
      ReachableIsAdded(run, genesis, t);
      AddedHasMetadata(run, t);
    }
    var r := store.InitChainStateFromStore(genesis);
    var total := store.GetTotalWork();
    work := total.value;
    if WorkGrows(store.db, genesis) {
      forall b | Reachable(BlockIndexOf(store.db), genesis, b) ensures ChainWork(store.db, b) <= work {
        TipWorkIsMaximal(store.db, genesis, store.chainTip, b);
      }
    }
  }
}
