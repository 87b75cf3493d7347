# Share chain store of P2Poolv2, modelled and proved in Dafny

P2Poolv2 keeps a chain of shares in which every share names a parent and any number of uncles, and stores it in
RocksDB behind one writer thread. This project models that store, the walks over it, the chain state kept in memory
while shares arrive, the byte codecs, the time-ordered stores, the id generator and the stratum client registry, and
proves what they promise over every input, every run or every interleaving.

- **Hashes** are modelled by what they were computed from (`Types`), which makes them collision free and nothing more.
  A header contains its parents' hashes, so links go strictly down; that is what rules out cycles.
- **The database** is one finite map changed only by committing a batch of put and merge operations (`Database`). A run
  is any list of batches, each built from calls whose guards read the state before the batch (`Runs`).
- **Walks** (`LoadChain`, `DagWalk`, `WalkExact`, `TipWalk`, `TipOrder`, `Descendants`, `DescendOrder`,
  `CommonAncestor`, `AncestorAnswer`, `FindUncles`) are the source's queue loops, each proved equal to a function about
  which the properties are proved; `BreadthFirst` has the levels of a graph.
- **Derived data over runs** is in `IndexTheorems`, `TxTheorems`, `ShareReads`, `ValidatedFlag`, `Confirmations` and
  `Candidates`; **memory and restart** in `ChainState`, `LiveChain`, `LiveWork`, `SharedPast`, `Restart` and `Window`;
  several tasks adding shares at once in `Overtaking`.
- **Bytes**: `Codec`, `Messages`, `WrittenBack`, `Frames`, `Writers`, `Commitment`, `Layout`, `MergeOperator`, `HeightKeys`
  and `HeightStore`. Bitcoin transactions and digests are foreign: they are parameters, a transaction codec that reads back
  what it wrote (and, for the converse, accepts one form of each transaction) and any function to the right number of
  bytes.
- **Time and ids**: `OrderedStore`, `TimeStores`, `TimeRuns`, `Snowflake`, `Users`. Clocks and database scans are
  parameters.
- **Stratum clients**: `ClientConnections`, a registry of bounded queues with every interleaving of its steps, and
  `Broadcasts`, where a broadcast is not one step.

Arithmetic that wraps in a release build (`* 1_000_000`, the timestamp difference, the shift, the counters, the 32-bit
counts) is modelled as wrapping.

Where the code does something other than its comments say, the model follows the code and a lemma says exactly when the
two agree; behind a semicolon stands an input on which they do not:

- the depth walk when a share names its own ancestor as uncle: `WalkExact.NewestToOldestIff`,
  `WalkExact.NothingMissingIff`; `WalkExact.OwnAncestorEndsWalk`;
- the common ancestor of a block and its ancestor: `AncestorAnswer.AncestorFirstIff`,
  `AncestorAnswer.AncestorSecondIff`; `AncestorAnswer.RepeatedUncleHidesAncestor`;
- the validated flag: `ValidatedFlag.ValidatedKeptIff`; `ValidatedFlag.FlagIsLost`;
- re-added shares: `IndexTheorems.HeightIndexIff`, `IndexTheorems.TxIndexesInverseIff`;
  `IndexTheorems.TwoHeightsDisagree`, `IndexTheorems.DroppedTxDisagrees`;
- the total work over a restart: `Restart.Restart`; `Restart.RestartLosesWork`, `Restart.StoryHappens`;
- the merge operator registered as associative: `MergeOperator.CombinedOperandsLost`; `MergeOperator.LoneOperandLost`;
- three key families in one column family: `HeightKeys.KeysMeetIff`; `HeightKeys.CollisionDestroysEntry`;
- frames with bytes behind the message: `Frames.OwnFrameIff`; `Frames.PaddedFrameAccepted`;
- the commitment hash of a header, on every input: `Commitment.HeaderNeverMatchesCommitment`;
- the lower bound of share queries, on every input: `TimeStores.ShareScanByTime`;
- bitcoin transactions, stored only by id: `ShareReads.ShareWholeIff`; `ShareReads.BitcoinTxDropped`;
- confirmed blocks and confirmed slots: `Confirmations.ConfirmedIffSlotIff`; `Confirmations.ConfirmedElsewhere`;
- the tip set when several tasks add shares at once: `Overtaking.TipsAsStoredIff`; `Overtaking.ParentStaysTip`.

`dafny verify dfyconfig.toml` checks the whole project.

## Model

| member | source | states |
|---|---|---|
| `LoadChain.LoadChain` | p2poolv2_lib/src/store/dag_store.rs:35-64 | the loop over an index without a reachable cycle returns, duplicate free, genesis first and nearest to genesis first, exactly the reachable blocks, and as tips exactly those without a children entry |
| `LoadChain.HaltsIffAcyclic` | p2poolv2_lib/src/store/dag_store.rs:35-64 | with no visited set the queue runs empty if and only if no cycle is reachable from genesis |
| `LoadChain.TurnShrinks` | p2poolv2_lib/src/store/dag_store.rs:42-61 | every turn lowers the path-counting weight of the queue, re-enqueued blocks included |
| `LoadChain.CycleKeepsQueue` | p2poolv2_lib/src/store/dag_store.rs:42-61 | a reachable cycle keeps some block that leads to it in the queue after every number of turns |
| `DagWalk.GetDagForDepth` | p2poolv2_lib/src/store/dag_store.rs:266-310 | the queue loop, with its early break and its wrapping depth counter, computes the walk function the lemmas below are about, on every finite store and at every depth |
| `DagWalk.WalkIsWoven` | p2poolv2_lib/src/store/dag_store.rs:266-310 | on every well-formed store the result is m0, m1, U(m0), m2, U(m1), ... with repeats dropped, up to the cut: the first main-chain block that is an uncle of one at least two above it; the early break loses nothing of this |
| `DagWalk.WalkMembers` | p2poolv2_lib/src/store/dag_store.rs:260-310 | the result is duplicate free and holds exactly the prev-ancestors within the depth that come before the cut, and their uncles |
| `DagWalk.WalkMainOrder` | p2poolv2_lib/src/store/dag_store.rs:260-310 | on a chain that is not cut the main-chain blocks of the result come newest to oldest with none missing |
| `DagWalk.DepthZeroWraps` | p2poolv2_lib/src/store/dag_store.rs:266-310 | at depth 0 the counter wraps, so the walk is that of depth 2^64 |
| `WalkExact.NothingMissingIff` | p2poolv2_lib/src/store/dag_store.rs:260-310 | the documented "ancestors within the depth with their uncles" all come out if and only if every block from the cut on, and every uncle of those, is also a block above the cut or an uncle of one |
| `WalkExact.NewestToOldestIff` | p2poolv2_lib/src/store/dag_store.rs:260-310 | the documented order holds if and only if the chain is not cut, or the uncles of the two blocks just above the cut are, in the order first listed, the rest of the chain |
| `WalkExact.OwnAncestorEndsWalk` | p2poolv2_lib/src/shares/validation/mod.rs:78-94 | four stored shares, each with at most three uncles and all of them stored, as validation asks, one of which names its grandparent as uncle: the walk from it never reaches genesis |
| `WalkExact.UnclesCarryOn` | p2poolv2_lib/src/store/dag_store.rs:266-310 | a chain cut above its last two blocks whose walk is complete and in order all the same |
| `DagWalk.StepShrinks` | p2poolv2_lib/src/store/dag_store.rs:271-307 | every turn of the loop visits a new stored block or shortens the queue, cyclic stores included |
| `CommonAncestor.GetCommonAncestor` | p2poolv2_lib/src/store/dag_store.rs:317-339 | the search returns the first block of the second walk that is in the first, at the depth of 2160 |
| `CommonAncestor.NoneIffDisjoint` | p2poolv2_lib/src/store/dag_store.rs:326-339 | none if and only if the two depth-bounded DAGs are disjoint, otherwise a common member |
| `CommonAncestor.UncleFreeIsPlain` | p2poolv2_lib/src/store/dag_store.rs:317-339 | on uncle-free stores neither chain is cut and all shared blocks lie on both main chains |
| `CommonAncestor.LatestCommonAncestor` | p2poolv2_lib/src/store/dag_store.rs:330-337 | where no chain is cut and shared blocks lie on both main chains, the answer is on both and every shared main-chain block is its prev-ancestor |
| `CommonAncestor.AnswerIsLatest` | p2poolv2_lib/src/store/dag_store.rs:330-337 | there the highest common prev-ancestor, if within the depth of both, is the answer |
| `CommonAncestor.Symmetric` | p2poolv2_lib/src/store/dag_store.rs:317-339 | there the two argument orders give the same answer |
| `AncestorAnswer.AnswerOnMainIff` | p2poolv2_lib/src/store/dag_store.rs:317-339 | with any uncles: a main-chain block before the cut of the second chain that the first DAG has is the answer if and only if the first DAG has no main-chain block before it and no uncle of those more than one before it |
| `AncestorAnswer.AncestorFirstIff` | p2poolv2_lib/src/store/dag_store.rs:312-339 | the documented "an ancestor of the other is returned", ancestor given first and before the cut: true if and only if no uncle met before it is in its own DAG |
| `AncestorAnswer.AncestorFirstBelowCutIff` | p2poolv2_lib/src/store/dag_store.rs:312-339 | the same for an ancestor from the cut on: true if and only if it is the first uncle of the blocks above the cut that is in its own DAG |
| `AncestorAnswer.AncestorSecondIff` | p2poolv2_lib/src/store/dag_store.rs:312-339 | the same with the ancestor given second: true if and only if it comes before the cut or is an uncle of a block that does |
| `AncestorAnswer.RepeatedUncleHidesAncestor` | p2poolv2_lib/src/store/dag_store.rs:312-339 | a six-block well-formed store where the documented answer is not given |
| `TipWalk.CollectShares` | p2poolv2_lib/src/store/dag_store.rs:233-255 | the loop over the queue with a visited set computes the collect function |
| `TipWalk.GetSharesFromTipToBlockhash` | p2poolv2_lib/src/store/dag_store.rs:221-258 | fails if and only if the target is not stored; otherwise returns, duplicate free, exactly the stored shares some tip leads back to along prev and uncle links without passing the target |
| `TipWalk.CollectExact` | p2poolv2_lib/src/store/dag_store.rs:236-255 | soundness and completeness of the walk from any loop state that keeps its invariant, on cyclic stores too |
| `TipOrder.NearestFirst` | p2poolv2_lib/src/store/dag_store.rs:232-255 | on every store the shares come in ascending order of the least number of links back from a tip |
| `Descendants.GetDescendantBlockhashes` | p2poolv2_lib/src/store/mod.rs:200-229 | the loop computes the descend function, on every finite index |
| `DescendOrder.DescendIs` | p2poolv2_lib/src/store/mod.rs:200-229 | on every index, cyclic or not: the answer is the children, in order, of the start and then level by level of what lies below it, up to the stop hash, cut at the limit |
| `DescendOrder.AnswerIsLevels` | p2poolv2_lib/src/store/mod.rs:200-229 | an answer that does not meet the stop hash is the levels below the start one after the other, cut at the limit |
| `DescendOrder.AnswerByWalkLength` | p2poolv2_lib/src/store/mod.rs:200-229 | the answer is ascending in the length of index walks from the start |
| `DescendOrder.NearestFirst` | p2poolv2_lib/src/store/mod.rs:200-229 | if a walk of length n leads to a block left out, a walk of length at most n leads to every block returned |
| `Descendants.DescendParented` | p2poolv2_lib/src/store/mod.rs:200-229 | every returned hash has an index parent that is the start or an earlier result |
| `Descendants.DescendComplete` | p2poolv2_lib/src/store/mod.rs:200-229 | an answer under the limit that did not meet the stop hash holds every descendant |
| `Descendants.DescendSound` | p2poolv2_lib/src/store/mod.rs:200-229 | every hash the loop returns is a proper descendant of the start |
| `Descendants.DescendForkFree` | p2poolv2_lib/src/store/mod.rs:200-229 | on a fork-free chain the answer is the segment after the start, through the stop hash, cut at the limit |
| `Descendants.GetFirstExistingBlockhash` | p2poolv2_lib/src/store/share_store.rs:174-185 | the first stored hash of the locator, none if and only if none is stored |
| `Descendants.GetBlockhashesForLocator` | p2poolv2_lib/src/store/dag_store.rs:133-150 | the descendants of the hash at the least position of the locator that is stored; with none stored, genesis alone, or nothing without a genesis |
| `Descendants.LocatorSound` | p2poolv2_lib/src/store/dag_store.rs:133-150 | for locators of any length every hash answered is a proper descendant of that hash |
| `Descendants.LocatorForkFree` | p2poolv2_lib/src/store/dag_store.rs:133-150 | on a fork-free chain the answer is what follows that hash, through the stop hash, cut at the limit |
| `Descendants.LocatorUnknown` | p2poolv2_lib/src/store/dag_store.rs:139-147 | a locator with no stored hash is answered with genesis alone, or with nothing |
| `Descendants.SyncRebuildsChain` | p2poolv2_lib/src/store/dag_store.rs:133-150 | repeated queries from the last hash rebuild a fork-free chain from genesis, limit blocks a round, without gap or repeat |
| `Database.CommitPut` | p2poolv2_lib/src/store/mod.rs:190-197 | after a batch a put-only key holds the last value put, else what it held |
| `Database.CommitMerge` | p2poolv2_lib/src/store/mod.rs:64-88 | after a batch a merged list holds what it held and every operand, each once |
| `ShareStore.AddShare` | p2poolv2_lib/src/store/share_store.rs:39-109 | the batch grows by exactly the operations of the share, in order |
| `ShareStore.AddIndexes` | p2poolv2_lib/src/store/share_store.rs:60-91 | the four index writes of a share, in order |
| `ShareStore.AddTxidsToBlocksIndex` | p2poolv2_lib/src/store/transaction_store.rs:205-222 | one merge of the block hash per transaction id |
| `ShareStore.UpdateBlockIndexForParents` | p2poolv2_lib/src/store/share_store.rs:85-91 | one merge of the block hash for the parent and each uncle |
| `ShareStore.UpdateBlockIndex` | p2poolv2_lib/src/store/dag_store.rs:69-96 | one merge of the child under the parent |
| `ShareStore.ShareOpsAre` | p2poolv2_lib/src/store/share_store.rs:39-109 | which operations a share contributes, by membership |
| `ShareStore.GetTxsStored` | p2poolv2_lib/src/store/transaction_store.rs:312-319 | the transactions of a block are read back in order, witnesses cleared, leaving out ids without a record |
| `TransactionStore.AddSharechainTxs` | p2poolv2_lib/src/store/transaction_store.rs:50-92 | the batch grows by exactly the operations of the transactions, and their metadata records are returned in order |
| `TransactionStore.AddSharechainTx` | p2poolv2_lib/src/store/transaction_store.rs:56-89 | the operations of one transaction: metadata, inputs with spends when on the main chain, outputs |
| `TransactionStore.AddSpend` | p2poolv2_lib/src/store/transaction_store.rs:125-144 | one put of the spending input under the spent output |
| `TransactionStore.LoadTx` | p2poolv2_lib/src/store/transaction_store.rs:327-379 | the two read loops, including the panic on a missing part |
| `TransactionStore.TxInvCommit` | p2poolv2_lib/src/store/transaction_store.rs:50-92 | every batch of this form keeps: each metadata record is that of its transaction, all of whose parts are stored |
| `TransactionStore.GetTxRoundTrip` | p2poolv2_lib/src/store/transaction_store.rs:327-379 | on such a store a recorded transaction reads back without its witnesses, whole if and only if its counts fit 32 bits |
| `TransactionStore.GetTxNeverPanics` | p2poolv2_lib/src/store/transaction_store.rs:327-379 | on such a store the read fails exactly on unknown ids and never panics |
| `Runs.CommitCalls` | p2poolv2_lib/src/store/writer/mod.rs:170-190 | a writer command, from the fresh batch to its commit, takes the store to what the run model says |
| `Runs.AfterIsOneCommit` | p2poolv2_lib/src/store/mod.rs:195-197 | a run of batches is one commit of all their operations in order |
| `Runs.RunList` | p2poolv2_lib/src/store/mod.rs:64-88 | after every run a merged list holds exactly the operands sent to it, duplicate free, and is never stored empty |
| `Runs.RunValue` | p2poolv2_lib/src/store/share_store.rs:39-109 | after every run a put key holds what the last call that wrote it put there |
| `Runs.RunTxInv` | p2poolv2_lib/src/store/transaction_store.rs:50-92 | the transaction invariant holds after every run of all six kinds of call |
| `IndexTheorems.ChildrenAgree` | p2poolv2_lib/src/store/share_store.rs:85-91 | after every run c is listed under p if and only if c was added and names p as parent or uncle |
| `IndexTheorems.RunAcyclic` | p2poolv2_lib/src/store/dag_store.rs:69-96 | no run builds a cyclic block index |
| `IndexTheorems.RunRecord` | p2poolv2_lib/src/store/share_store.rs:93-107 | after every run the records of a block are those of the last call that added it |
| `IndexTheorems.HeightListIs` | p2poolv2_lib/src/store/share_store.rs:241-272 | b is in the list of height h if and only if some call added it there |
| `IndexTheorems.HeightIndexIff` | p2poolv2_lib/src/store/share_store.rs:241-304 | height lists and recorded heights agree for all blocks and heights if and only if no share was re-added at another height |
| `IndexTheorems.TwoHeightsDisagree` | p2poolv2_lib/src/store/share_store.rs:241-304 | for every share: added at two heights, it is listed at both and recorded at one |
| `IndexTheorems.BlocksOfTxid` | p2poolv2_lib/src/store/transaction_store.rs:205-245 | b is listed for a transaction if and only if some addition of b carried it |
| `IndexTheorems.TxidsOfBlock` | p2poolv2_lib/src/store/transaction_store.rs:248-295 | the ids of a block are those of its last addition, in order |
| `IndexTheorems.AlreadyUncleIff` | p2poolv2_lib/src/store/dag_store.rs:345-365 | after every run a block counts as an uncle if and only if some call entered it as one |
| `IndexTheorems.TxIndexesInverseIff` | p2poolv2_lib/src/store/transaction_store.rs:205-295 | the two transaction indexes are inverse if and only if no re-addition drops a transaction |
| `IndexTheorems.DroppedTxDisagrees` | p2poolv2_lib/src/store/transaction_store.rs:205-295 | for every share with a transaction: re-added without it, the two indexes are not inverse |
| `TxTheorems.StoredIff` | p2poolv2_lib/src/store/transaction_store.rs:50-92 | after every run a transaction has a record if and only if some call stored it |
| `TxTheorems.RunGetTx` | p2poolv2_lib/src/store/transaction_store.rs:327-379 | after every run the read finds exactly the stored transactions, never panics, and returns the original without witnesses when the counts fit |
| `TxTheorems.RunGetShare` | p2poolv2_lib/src/store/share_store.rs:112-136 | after every run a share reads back as last added: header, share transactions in order, and of the bitcoin transactions exactly those some call also stored (input and output counts within 32 bits) |
| `ShareReads.ShareWholeIff` | p2poolv2_lib/src/store/share_store.rs:112-136 | after every run a share reads back with the transactions it was last added with if and only if each is without witnesses and its counts fit 32 bits, and with its bitcoin transactions if and only if besides some call stored each |
| `ShareReads.BitcoinTxDropped` | p2poolv2_lib/src/store/share_store.rs:60-79 | for every share with a bitcoin transaction that is none of its own: added alone, it does not come back with it |
| `TxTheorems.SpentIsLastWrite` | p2poolv2_lib/src/store/transaction_store.rs:149-167 | after every run, re-additions included, the spends entry of an output is its last main-chain write |
| `TxTheorems.SpentSound` | p2poolv2_lib/src/store/transaction_store.rs:125-167 | no entry if and only if no main-chain call ever spent the output; an entry names a stored transaction and the input that spends it |
| `ValidatedFlag.BatchValidatedIff` | p2poolv2_lib/src/store/transaction_store.rs:50-111 | after a batch of any calls a transaction is valid if and only if the last store or mark of it in the batch was an effective mark, or there was none and it was valid before |
| `ValidatedFlag.RunValidatedIff` | p2poolv2_lib/src/store/transaction_store.rs:50-111 | after every run a transaction is valid if and only if the last batch with an effect on it had a mark as its last effect |
| `ValidatedFlag.ValidatedKeptIff` | p2poolv2_lib/src/store/transaction_store.rs:95-111 | the documented "a valid transaction is not made invalid again": valid after any further batches if and only if the last of them that stores or marks it does so last by marking |
| `ValidatedFlag.FlagIsLost` | p2poolv2_lib/src/store/transaction_store.rs:50-111 | for every transaction: stored, marked and stored again, it is valid after the second batch and not after the third |
| `Organise.MakeCandidate` | p2poolv2_lib/src/store/organise.rs:110-127 | the batch grows by the candidate slot and the raised top exactly when the height is next |
| `Candidates.BatchEffect` | p2poolv2_lib/src/store/organise.rs:38-56 | what a batch of any calls does to every candidate slot and to the candidate top |
| `Candidates.TopRisesIff` | p2poolv2_lib/src/store/organise.rs:38-56 | once there is a candidate top a batch raises it by one if and only if one of its calls is for the height above it, and leaves it otherwise |
| `Candidates.CandidateIsLast` | p2poolv2_lib/src/store/organise.rs:110-127 | after every run a candidate slot holds the block of the last call for its height |
| `Candidates.TopHasCandidate` | p2poolv2_lib/src/store/organise.rs:38-127 | after every run there is a candidate top if and only if some call made a candidate, and its slot is taken |
| `Organise.MakeConfirmed` | p2poolv2_lib/src/store/organise.rs:131-155 | the batch grows by the confirmed slot and the raised top exactly when the height is next or nothing is confirmed |
| `Confirmations.BatchEffect` | p2poolv2_lib/src/store/organise.rs:131-155 | what a batch of any calls does to every confirmed slot and to the top |
| `Confirmations.BatchKeepsGapFree` | p2poolv2_lib/src/store/organise.rs:131-155 | once a block is confirmed a batch writes at most slot top+1, with the last call for it, raises the top by at most one and rewrites nothing |
| `Confirmations.RunKeepsGapFree` | p2poolv2_lib/src/store/organise.rs:131-155 | however calls are grouped into batches, every run keeps earlier slots and leaves an interval without gaps ending at the top |
| `Confirmations.FirstBatchGapFreeIff` | p2poolv2_lib/src/store/organise.rs:131-155 | the first batch leaves a gap-free interval if and only if the heights it confirms are one that ends at its last call |
| `Confirmations.GenesisGapFree` | p2poolv2_lib/src/store/mod.rs:279-292 | setting up genesis leaves exactly slot 0, holding genesis |
| `Confirmations.ConfirmedChain` | p2poolv2_lib/src/store/mod.rs:279-292 | every continuation of a set-up store has slots 0 to top, genesis first, and keeps every slot an earlier state held |
| `Confirmations.IsConfirmedIffSlot` | p2poolv2_lib/src/store/organise.rs:183-196 | when confirmations use recorded heights a block is confirmed if and only if it occupies a slot |
| `Confirmations.ConfirmedIffSlotIff` | p2poolv2_lib/src/store/organise.rs:183-196 | being confirmed and occupying a slot agree for all blocks if and only if every block in a slot holds the slot of the height it was last added at |
| `Confirmations.ConfirmedElsewhere` | p2poolv2_lib/src/store/organise.rs:131-196 | for every share: added at one height and first confirmed at another, it is in a slot and not confirmed |
| `ChainState.Store.SetupGenesis` | p2poolv2_lib/src/store/mod.rs:279-292 | the batch and the in-memory genesis, tip and tip set after genesis |
| `ChainState.Store.GetTotalWork` | p2poolv2_lib/src/store/mod.rs:272-275 | the recorded chain work of the tip, an error if and only if it has no record |
| `ChainState.Store.InitChainStateFromStore` | p2poolv2_lib/src/store/mod.rs:296-329 | reloads exactly the reachable childless blocks as tips and a tip of maximal work; says exactly when it fails on a record or panics on no tips |
| `ChainState.HeaviestTip` | p2poolv2_lib/src/store/mod.rs:311-317 | a tip of maximal work, whatever order the set is iterated in |
| `ChainState.TipExists` | p2poolv2_lib/src/store/mod.rs:311-317 | an acyclic index without empty entries has a tip, so the panic cannot happen |
| `ChainState.TipWorkIsMaximal` | p2poolv2_lib/src/store/mod.rs:296-329 | if work never decreases along index edges, a heaviest tip bounds every reachable block |
| `ChainState.ReloadAfterRun` | p2poolv2_lib/src/store/mod.rs:296-329 | on every store a run built that holds genesis, reloading succeeds; where work never decreases along edges the total is the maximum over all reachable blocks |
| `LiveChain.AddShareToChain` | p2poolv2_lib/src/shares/chain/chain_store_handle.rs:361-407 | the in-memory tip and tip set and the committed store after a share arrives are those of the arrive function, genesis case and error case included |
| `LiveChain.Reorg` | p2poolv2_lib/src/shares/chain/chain_store_handle.rs:410-468 | the choice of tip, by total work with a common ancestor and by window work without, and the tip set afterwards |
| `LiveChain.StoreShare` | p2poolv2_lib/src/shares/chain/chain_store_handle.rs:401-404 | the store has the one batch of the share more, memory is as before |
| `LiveChain.WorkOverPplnsWindow` | p2poolv2_lib/src/shares/chain/chain_store_handle.rs:471-487 | the summed work of the walk over the window |
| `Window.WindowWorkIs` | p2poolv2_lib/src/shares/chain/chain_store_handle.rs:471-487 | on every well-formed store the window work is the work of exactly the main-chain blocks met within 2160 and their uncles, each once |
| `Window.UncleFreeWindow` | p2poolv2_lib/src/shares/chain/chain_store_handle.rs:471-487 | after orderly arrivals without uncles the window work and the chain work of the block just below the window add up to the chain work; with at most 2160 blocks the two works are equal |
| `Window.OrphanWindow` | p2poolv2_lib/src/shares/chain/chain_store_handle.rs:471-487 | the window work of a share without a stored parent is its own work, whatever uncles it names |
| `LiveChain.RemoveTips` | p2poolv2_lib/src/shares/chain/chain_store_handle.rs:460-465 | the parent and all uncles leave the tip set |
| `LiveChain.LiveTipsAre` | p2poolv2_lib/src/shares/chain/chain_store_handle.rs:361-468 | for every list of arrivals, in any order, the tip set holds exactly the shares that no later arrival names as parent or uncle |
| `LiveChain.ReloadedTipsWereLive` | p2poolv2_lib/src/shares/chain/chain_store_handle.rs:361-468 | whatever a restart reloads as a tip was a live tip |
| `LiveChain.TipSurvivesIff` | p2poolv2_lib/src/shares/chain/chain_store_handle.rs:361-468 | a restart treats a block alike if and only if, when it is open, it hangs together with genesis and nothing ever named it |
| `LiveChain.TipsSurvive` | p2poolv2_lib/src/shares/chain/chain_store_handle.rs:361-468 | when shares arrive once and after their parents, the reloaded tip set is the live one |
| `LiveWork.RecordAfter` | p2poolv2_lib/src/shares/chain/chain_store_handle.rs:382-405 | an arrival records height and work over its parent and leaves every other record alone |
| `LiveWork.StaysHeaviestIff` | p2poolv2_lib/src/shares/chain/chain_store_handle.rs:410-487 | with the chain tip heaviest before, it is heaviest after a new arrival if and only if the two have a common ancestor, or the work over the window orders them as the chain work does |
| `Window.NextTip` | p2poolv2_lib/src/shares/chain/chain_store_handle.rs:410-458 | a new share becomes the chain tip if and only if it has more chain work than the tip, when they have a common ancestor, and otherwise more window work; with equal work the tip stays |
| `Window.OrphanBecomesTipIff` | p2poolv2_lib/src/shares/chain/chain_store_handle.rs:441-457 | a share whose parent never came and that finds no common ancestor becomes the chain tip if and only if its own work exceeds the window work of the tip |
| `Window.PlaceRecorded` | p2poolv2_lib/src/shares/chain/chain_store_handle.rs:382-394 | a share is recorded one above its parent with its work added, and at height 1 with its own work if the parent has no record |
| `Window.RecordIffArrived` | p2poolv2_lib/src/shares/chain/chain_store_handle.rs:382-404 | a block has a record, with a height, if and only if it arrived |
| `LiveWork.ExtendingMeetsTip` | p2poolv2_lib/src/shares/chain/chain_store_handle.rs:425-439 | a share whose parent is the chain tip always has a common ancestor with it |
| `LiveWork.TipIsHeaviest` | p2poolv2_lib/src/shares/chain/chain_store_handle.rs:410-458 | while arrivals share a past with the tip they meet, the chain tip has the largest chain work of all shares |
| `SharedPast.RecordedHeights` | p2poolv2_lib/src/shares/chain/chain_store_handle.rs:382-394 | when shares arrive once and after their parents, each is recorded at the length of the chain below it |
| `SharedPast.OrderlyWellFormed` | p2poolv2_lib/src/shares/chain/chain_store_handle.rs:361-407 | the headers such arrivals store are a well-formed store for the walks |
| `SharedPast.TameSharesPast` | p2poolv2_lib/src/shares/chain/chain_store_handle.rs:425-439 | if besides no share names its own prev-ancestor as uncle and chains have at most 2160 blocks, every arrival has a common ancestor with the tip it meets |
| `SharedPast.LowSharesPast` | p2poolv2_lib/src/shares/chain/chain_store_handle.rs:425-439 | the same with the bound on the recorded heights |
| `LiveWork.HeavyUncle` | p2poolv2_lib/src/shares/chain/chain_store_handle.rs:436-465 | a share no heavier than the tip that names the tip as uncle leaves it chain tip but outside the tip set |
| `Restart.OrderlyWorkGrows` | p2poolv2_lib/src/shares/chain/chain_store_handle.rs:382-394 | when shares arrive after their parents and no uncle outweighs its nephew, work never decreases along index edges |
| `Restart.Restart` | p2poolv2_lib/src/store/mod.rs:296-329 | after orderly arrivals a restart keeps the tip set and takes a heaviest of it; if arrivals also had a common ancestor with the tip they met, it never raises the total work, keeps it if and only if some live tip attains it, and always when no uncle outweighs its nephew |
| `Restart.RestartLosesWork` | p2poolv2_lib/src/shares/chain/chain_store_handle.rs:436-465 | genesis, t, then a lighter share on genesis that names t as uncle: every tip a restart can take is lighter than the live one |
| `Restart.StoryHappens` | p2poolv2_lib/src/shares/chain/chain_store_handle.rs:436-465 | such shares exist |
| `Overtaking.UndisturbedIsArrival` | p2poolv2_lib/src/shares/chain/chain_store_handle.rs:361-407 | the three turns of a task, place, store and choose, without a break are an arrival |
| `Overtaking.TipsFollowChoices` | p2poolv2_lib/src/shares/chain/chain_store_handle.rs:361-468 | with any number of tasks in any interleaving, the tip set holds exactly the shares that none of those that chose later names; what chose or waits to choose is exactly what was stored |
| `Overtaking.TipIsRecorded` | p2poolv2_lib/src/shares/chain/chain_store_handle.rs:418-419 | there the chain tip always has a record, so no choice ends in an error |
| `Overtaking.TipsAsStoredIff` | p2poolv2_lib/src/shares/chain/chain_store_handle.rs:361-468 | once settled, shares stored once and after their parents: the tip set is that of the stored order if and only if no named share chose after all that name it |
| `Overtaking.ParentStaysTip` | p2poolv2_lib/src/shares/chain/chain_store_handle.rs:401-465 | for every parent and child stored in order that choose the other way round: the parent stays a tip |
| `Overtaking.TipHeaviestOfChosen` | p2poolv2_lib/src/shares/chain/chain_store_handle.rs:410-458 | in any interleaving, while every choice finds a common ancestor and shares are stored once, no share that chose is heavier than the chain tip |
| `FindUncles.EligibleIff` | p2poolv2_lib/src/store/dag_store.rs:383-416 | a block is considered if and only if it is an index child of a confirmed block in the three heights below the top, not confirmed, not yet an uncle, and of known height |
| `FindUncles.EligibleCount` | p2poolv2_lib/src/store/dag_store.rs:383-416 | and as often as the children lists of those confirmed blocks hold it |
| `FindUncles.EligibleInOrder` | p2poolv2_lib/src/store/dag_store.rs:389-416 | they are met by the height of the confirmed block that lists them, lowest first, and within its list in the order of the list |
| `FindUncles.FindUnclesSpec` | p2poolv2_lib/src/store/dag_store.rs:383-425 | fails if and only if nothing is confirmed; else returns the highest min(3, n) of the n occurrences, descending, equals in the order met |
| `MergeOperator.BlockhashListMerge` | p2poolv2_lib/src/store/mod.rs:64-88 | on bytes: the stored list, if it decodes, with each new 32-byte operand appended once |
| `MergeOperator.MergeInGroups` | p2poolv2_lib/src/store/mod.rs:64-88 | merging operands in groups into the stored value is merging them at once |
| `MergeOperator.MergedIsNoOperand` | p2poolv2_lib/src/store/mod.rs:64-88 | no merged value is itself a valid operand |
| `MergeOperator.CombinedOperandsLost` | p2poolv2_lib/src/store/mod.rs:108-133 | registered as associative, the operator may be asked to combine operands first: the result is the same if and only if the stored list already held them all |
| `MergeOperator.LoneOperandLost` | p2poolv2_lib/src/store/mod.rs:64-88 | with nothing stored, one operand merged directly is the list, and combined first leaves the list empty |
| `HeightKeys.KeysMeetIff` | p2poolv2_lib/src/store/organise.rs:24-32 | two records of the BlockHeight column family share key bytes if and only if they are the same, or a list key meets a candidate or confirmed key at the stated heights |
| `HeightKeys.ListMeetsOrganised` | p2poolv2_lib/src/store/share_store.rs:241-259 | a list key equals a candidate or confirmed key if and only if the latter height H is in 0x683A0000..0x683AFFFF and the list height is (H mod 2^16) * 2^16 plus 0x3A63 or 0x3A66 |
| `HeightKeys.WriteRefines` | p2poolv2_lib/src/store/organise.rs:34-68 | below that bound a write changes its own record and no other |
| `HeightKeys.RunRefines` | p2poolv2_lib/src/store/organise.rs:34-155 | below that bound the one column family refines separate maps over every run |
| `HeightStore.RunReadsBack` | p2poolv2_lib/src/store/organise.rs:24-181 | after every run of all kinds of call below that bound, the bytes of the column family read back as the height lists, candidate and confirmed slots and tops of the model store, under any injective 32-byte hashes |
| `HeightKeys.CollisionDestroysEntry` | p2poolv2_lib/src/store/share_store.rs:241-259 | at a colliding height the list merge destroys the entry it meets |
| `Messages.ReadsHeader` | p2poolv2_lib/src/shares/share_block/mod.rs:122-171 | a share header reads back from its encoding followed by anything |
| `Messages.ReadsBlock` | p2poolv2_lib/src/shares/share_block/mod.rs:289-334 | a share block reads back from its encoding followed by anything |
| `Messages.ReadsHeaders` | p2poolv2_lib/src/node/messages.rs:148-191 | a header list reads back, each header followed by its zero byte |
| `Messages.ReadsMessage` | p2poolv2_lib/src/node/messages.rs:193-265 | every message within the reader caps reads back from its encoding followed by anything, leaving exactly that |
| `Messages.MessagePrefixFree` | p2poolv2_lib/src/node/messages.rs:193-265 | no message encoding is a prefix of that of a different message |
| `WrittenBack.MessageBack` | p2poolv2_lib/src/node/messages.rs:193-265 | for a foreign codec that accepts one form of each transaction: whatever the decoder reads is a message within the caps, and the bytes are its encoding and what is left; every tag, list, header, block and shortest-form count included |
| `WrittenBack.MessageIff` | p2poolv2_lib/src/node/messages.rs:193-265 | the decoder reads a message and leaves the rest if and only if the bytes are its encoding followed by that rest and it is within the caps |
| `Layout.MessageBytes` | p2poolv2_lib/src/node/messages.rs:26-50 | the bytes each kind of message begins with: tags 0 to 7, second tags 0 and 1 of inventories and data requests, and what follows them |
| `Layout.FirstByteDecides` | p2poolv2_lib/src/node/messages.rs:240-265 | whatever is read, its kind is the one its first byte announces |
| `Layout.SecondByteDecides` | p2poolv2_lib/src/node/messages.rs:333-386 | within an inventory and a data request the second byte tells the kind |
| `Layout.HeaderBytes` | p2poolv2_lib/src/shares/share_block/mod.rs:122-139 | the offset of every field of a share header, and the eight bytes of bits and time, least significant first |
| `Layout.HeaderListBytes` | p2poolv2_lib/src/node/messages.rs:148-163 | a header list is its count and the headers, each followed by a zero byte |
| `Layout.CountBytes` | p2poolv2_lib/src/shares/share_block/mod.rs:336-349 | counts take one byte, or a marker 253, 254 or 255 and two, four or eight bytes, least significant first |
| `Layout.HashListBytes` | p2poolv2_lib/src/shares/share_block/mod.rs:336-349 | a hash list is its count and then each hash at its place |
| `Layout.FrameBytes` | p2poolv2_lib/src/node/messages.rs:267-276 | a frame is magic, length with the least significant byte first, checksum and payload, at these offsets |
| `Codec.ReadsHashesIff` | p2poolv2_lib/src/shares/share_block/mod.rs:336-375 | a hash list reads back if and only if its encoding is within the reader cap |
| `Frames.ReadsRaw` | p2poolv2_lib/src/node/messages.rs:77-109 | a frame reads back and leaves what followed it, so the announced length and checksum are right |
| `Frames.ReadsStream` | p2poolv2_lib/src/node/messages.rs:267-305 | a concatenation of frames decodes to the same messages in order |
| `Frames.PaddedFrameAccepted` | p2poolv2_lib/src/node/messages.rs:278-305 | a frame whose payload carries bytes behind its message is accepted as that message, and is not the frame of it |
| `Frames.AcceptedIsPadded` | p2poolv2_lib/src/node/messages.rs:278-305 | an accepted frame carries the checksum of exactly the bytes its length announces, which are the encoding of its message and what the message decoder leaves |
| `Frames.AcceptedIff` | p2poolv2_lib/src/node/messages.rs:278-305 | accepted as a message if and only if the message is within the caps and the bytes are a frame of it, under some magic and with some bytes behind the message |
| `Frames.OwnFrameIff` | p2poolv2_lib/src/node/messages.rs:91-109 | an accepted frame is the frame of its message, field by field and byte by byte, if and only if the message decoder uses up the payload |
| `Frames.StreamIff` | p2poolv2_lib/src/node/messages.rs:267-305 | a stream decodes to a list of messages if and only if it is a concatenation of such frames of them, in that order |
| `Writers.WriteHeader` | p2poolv2_lib/src/shares/share_block/mod.rs:122-139 | the writer grows by the encoding and the returned length is the bytes written |
| `Writers.WriteHeaders` | p2poolv2_lib/src/node/messages.rs:148-163 | the same for header lists |
| `Writers.WriteVec` | p2poolv2_lib/src/shares/share_block/mod.rs:336-349 | the same for a count and its items |
| `Writers.WriteBlock` | p2poolv2_lib/src/shares/share_block/mod.rs:289-305 | the same for share blocks, through the header, the count, the loop and the foreign vector |
| `Writers.WriteInventory` | p2poolv2_lib/src/node/messages.rs:315-331 | the same for inventories, tag first |
| `Writers.WriteWanted` | p2poolv2_lib/src/node/messages.rs:358-374 | the same for data requests, tag first |
| `Writers.WriteMessage` | p2poolv2_lib/src/node/messages.rs:193-237 | the same for messages of every kind |
| `Writers.BuildRawMessage` | p2poolv2_lib/src/node/messages.rs:91-109 | the frame built has the length and checksum of the encoded payload |
| `Writers.WriteRaw` | p2poolv2_lib/src/node/messages.rs:267-276 | the writer grows by the frame and the returned length is the bytes written |
| `Commitment.ReadsCommitment` | p2poolv2_lib/src/shares/share_commitment.rs:72-129 | a commitment reads back from its encoding followed by anything |
| `Commitment.CommitmentInjective` | p2poolv2_lib/src/shares/share_commitment.rs:64-97 | equal hash inputs come from equal commitments, so the hash binds every field |
| `Layout.CommitmentBytes` | p2poolv2_lib/src/shares/share_commitment.rs:72-97 | the offset of every field of a commitment, with and without a merkle root |
| `Layout.AnyFlagAnnouncesRoot` | p2poolv2_lib/src/shares/share_commitment.rs:99-129 | any flag byte but 0 announces a merkle root |
| `Commitment.WriteCommitment` | p2poolv2_lib/src/shares/share_commitment.rs:72-97 | the writer grows by the encoding and the returned length is the bytes written |
| `Commitment.HeaderNeverMatchesCommitment` | p2poolv2_lib/src/shares/share_block/mod.rs:101-120 | the bytes the header hashes as its commitment are never the encoding of any commitment |
| `ClientConnections.ClientConnections.Add` | p2poolv2_lib/src/stratum/client_connections.rs:108-121 | registers a fresh channel and drops the senders of the one it replaces |
| `ClientConnections.ClientConnections.Remove` | p2poolv2_lib/src/stratum/client_connections.rs:125-136 | signals and drops the client, true if and only if it was registered |
| `ClientConnections.ClientConnections.SendToAll` | p2poolv2_lib/src/stratum/client_connections.rs:142-157 | offers the message to every registered client and removes those that could not take it |
| `ClientConnections.ClientConnections.SendToClient` | p2poolv2_lib/src/stratum/client_connections.rs:162-172 | true if and only if the client took the message |
| `ClientConnections.InOrderWithoutGaps` | p2poolv2_lib/src/stratum/client_connections.rs:104-172 | in every interleaving, received plus queued messages are a gap-free prefix of all addressed since the add, and all of them while registered |
| `ClientConnections.UnregisteredIsToldSo` | p2poolv2_lib/src/stratum/client_connections.rs:104-172 | queues never exceed 10, and a connection that misses a message no longer holds its registration |
| `ClientConnections.MissedMeansSignalled` | p2poolv2_lib/src/stratum/client_connections.rs:142-172 | a client that cannot take a message is removed and signalled by that very step |
| `ClientConnections.RegistrationEnds` | p2poolv2_lib/src/stratum/client_connections.rs:108-172 | what every step does to a connection's shutdown channel: dropped by an add at its address, signalled by a message it cannot take (ten queued, or the receiver gone), else unchanged |
| `ClientConnections.TakeKeepsValid` | p2poolv2_lib/src/stratum/client_connections.rs:104-172 | every step keeps the registry consistent with the channels |
| `Broadcasts.BroadcastIsOneStep` | p2poolv2_lib/src/stratum/client_connections.rs:142-157 | however receives and hang-ups interleave with the offers and removals of a broadcast, it ends where the broadcast in one step ends, with each client's steps up to its offer before it and the others behind, in their order |
| `Broadcasts.EventsAreSteps` | p2poolv2_lib/src/stratum/client_connections.rs:104-172 | every run with interleaved broadcasts ends where some run of whole steps with the same actor steps in the same order ends |
| `Broadcasts.InOrderThroughBroadcasts` | p2poolv2_lib/src/stratum/client_connections.rs:104-172 | so delivery is in order and without gaps there too |
| `OrderedStore.ByteOrderIsNumeric` | p2poolv2_lib/src/store/job_store.rs:31-35 | byte-lexicographic order on big-endian keys of one length is numeric order |
| `OrderedStore.Key8Order` | p2poolv2_lib/src/store/job_store.rs:31-35 | eight-byte keys are ordered and equal as their numbers are |
| `OrderedStore.ScanUnique` | p2poolv2_lib/src/store/job_store.rs:73-80 | the bounds determine what a reverse scan yields, in which order |
| `OrderedStore.ScanExists` | p2poolv2_lib/src/store/job_store.rs:73-80 | every key set has such a scan over every range |
| `TimeRuns.TimedStore.GetJobs` | p2poolv2_lib/src/store/job_store.rs:41-105 | returns exactly the newest limit jobs from start to end, strictly descending in time; an error only on a key that is no timestamp, which a store built by its own methods does not hold |
| `TimeStores.PruneJobsExact` | p2poolv2_lib/src/store/background_tasks.rs:94-122 | pruning removes a job if and only if it is at or before the cutoff, except one at the last representable time |
| `TimeStores.PruneKeepsJobQueries` | p2poolv2_lib/src/store/background_tasks.rs:94-122 | a job query that starts after the cutoff scans and answers the same before and after pruning |
| `TimeStores.MakeKeyOrder` | p2poolv2_lib/src/accounting/simple_pplns/mod.rs:74-80 | share keys are ordered by time, then user, then sequence, and are injective |
| `TimeStores.ShareScanByTime` | p2poolv2_lib/src/store/pplns_shares.rs:63-85 | the bounds select exactly the shares from start to end, in microseconds wrapping at 64 bits, both included though the source comments call the lower bound exclusive, newest first |
| `TimeStores.ShareKeyParts` | p2poolv2_lib/src/store/pplns_shares.rs:31-44 | a share key spells the time in microseconds, the user and the id |
| `TimeStores.ScanIsNewestKeys` | p2poolv2_lib/src/store/pplns_shares.rs:63-96 | the part of the scan within the limit is the newest limit keys from start to end, in descending key order |
| `TimeStores.PopulateKeepsOrder` | p2poolv2_lib/src/store/pplns_shares.rs:99-125 | exactly the shares of known users come out, each once per place it went in, in the same order, with their user's address |
| `TimeRuns.TimedStore.GetPplnsSharesFiltered` | p2poolv2_lib/src/store/pplns_shares.rs:54-96 | of the newest limit shares from start to end, 100000 by default, those of known users in the same order; the limit cuts before the others are dropped |
| `TimeStores.PruneSharesExact` | p2poolv2_lib/src/store/background_tasks.rs:58-88 | pruning removes a share if and only if it is at or before the cutoff, except at the last representable time |
| `TimeStores.PruneKeepsShareQueries` | p2poolv2_lib/src/store/background_tasks.rs:58-88 | a share query that starts after the cutoff scans and answers the same before and after pruning |
| `TimeRuns.TimedStore.AddJob` | p2poolv2_lib/src/store/job_store.rs:24-37 | one put under the big-endian timestamp |
| `TimeRuns.TimedStore.AddPplnsShare` | p2poolv2_lib/src/store/pplns_shares.rs:31-44 | one put under time, user and id, without the address |
| `TimeRuns.TimedStore.PruneJobs` | p2poolv2_lib/src/store/background_tasks.rs:94-122 | exactly the jobs whose time plus the age limit is at most the clock are gone; with a limit beyond the clock those at time 0; never one at the last representable time |
| `TimeRuns.PruneJobsByAge` | p2poolv2_lib/src/store/background_tasks.rs:102-118 | the same as a step of the run model, with what stays unchanged |
| `TimeRuns.TimedStore.PruneShares` | p2poolv2_lib/src/store/background_tasks.rs:58-88 | the same for shares, by the time in their key |
| `TimeRuns.PruneSharesByAge` | p2poolv2_lib/src/store/background_tasks.rs:66-84 | the same as a step of the run model, with what stays unchanged |
| `TimeRuns.JobsAfterRun` | p2poolv2_lib/src/store/background_tasks.rs:94-122 | after every run of adds and prunes a time holds exactly the job last added there and not pruned since |
| `TimeRuns.SharesAfterRun` | p2poolv2_lib/src/store/background_tasks.rs:58-88 | after every run a share key holds exactly the share last added there and not pruned since |
| `Snowflake.Generator.NextId` | p2poolv2_lib/src/utils/snowflake_simplified.rs:33-46 | takes and bumps the wrapping counter and builds the id |
| `Snowflake.IdIs` | p2poolv2_lib/src/utils/snowflake_simplified.rs:33-46 | within 42 bits of milliseconds from the start of 2025 an id is those milliseconds times 2^22 plus the counter modulo 2^22 |
| `Snowflake.TakeIds` | p2poolv2_lib/src/utils/snowflake_simplified.rs:33-46 | call k of a generator gets the id of its clock reading and of place k, across wraps of the 32-bit counter |
| `Snowflake.SameIdIff` | p2poolv2_lib/src/utils/snowflake_simplified.rs:33-46 | two calls get the same id if and only if their clocks agree modulo 2^42 and their places modulo 2^22 |
| `Snowflake.PacedAreDistinct` | p2poolv2_lib/src/utils/snowflake_simplified.rs:24-46 | if calls in one millisecond are fewer than 2^22 apart and times fit 42 bits, all ids are distinct |
| `Snowflake.IdOrder` | p2poolv2_lib/src/utils/snowflake_simplified.rs:24-46 | ids sort by time, then by place modulo 2^22 |
| `Users.UserStore.AddUser` | p2poolv2_lib/src/store/user.rs:25-68 | an indexed address answers its id and changes nothing; otherwise user and index entry are written |
| `Users.CallAlone` | p2poolv2_lib/src/store/user.rs:25-68 | an undisturbed call takes the interleaving machine through that same change |
| `Users.AnswersResolveForever` | p2poolv2_lib/src/store/user.rs:25-86 | in every interleaving of lookups, id draws and writes, every id ever answered resolves to its address at the end |
| `Users.IndexIsSound` | p2poolv2_lib/src/store/user.rs:89-106 | an address finds a user if and only if one was written for it, and then one with that address |
| `Users.SharesNeverOverwritten` | p2poolv2_lib/src/store/pplns_shares.rs:40-42 | all share keys ever written differ and each still holds its own share |
| `Users.WriteKeepsUserIff` | p2poolv2_lib/src/store/user.rs:47-66 | a write loses an earlier user if and only if it repeats that id for another address |
| `Users.RacingCalls` | p2poolv2_lib/src/store/user.rs:25-68 | two calls for one new address that both look up before either writes get different ids, both of which resolve; the index keeps the later |

## Left out

- Descendants.SyncRebuildsChain: forked chains, on which the order of the answer depends on the order of the children lists.
- Confirmations.IsConfirmedIffSlot: one direction needs confirmations to use the recorded height, which the source leaves to its callers; Confirmations.ConfirmedIffSlotIff is exact.
- LiveWork.TipIsHeaviest: arrivals without a common ancestor with the tip, where the source compares window work instead; LiveWork.StaysHeaviestIff covers that step exactly, and SharedPast.LowSharesPast says when there are none.
- LiveChain.AddShareToChain: overflow of the 256-bit work and of the 32-bit height. Arrivals are taken one after the other; Overtaking has them at once.
- Overtaking.TipsFollowChoices: two tasks setting up genesis at once, and the single reads and writes inside one choice, which happens in one turn.
- Snowflake.Generator.NextId: the or of the shifted time and the masked counter is written as a sum, since the shifted time ends in 22 zero bits.
- Messages.ReadsMessage: whether a public key or a bitcoin header is valid; their bytes are read as they are.
- TransactionStore.LoadTx: the text form of input and output keys and failed deserialisations of foreign values.
- TimeRuns.TimedStore.GetJobs: job data that is not UTF-8, which `add_job` cannot store.
- TimeRuns.TimedStore.GetPplnsSharesFiltered: difficulty and job fields of a share are one opaque payload, and the address lookup is a parameter.
- ClientConnections.InOrderWithoutGaps: the actor's command channel; commands are taken as already in some order.
- HeightStore.RunReadsBack: runs of 2^64 operations or more, whose list counts no longer fit a word.
- Runs.CommitCalls: the reply sent back and a database error on commit.
- RocksDB itself: write-ahead log, compaction, read-only mode, column family set-up; a committed batch is atomic and lasting.
- `block_tx_metadata.rs` codecs, `get_descendants`, `get_parent`, `get_uncles`, `get_nephews`, `get_missing_blockhashes`, `build_locator`: read-only lookups and codecs of the same kind as those here.
- Share validation, difficulty and payout arithmetic, block building, stratum messages, peer networking, HTTP API, command line and dashboard.
