/**
  The key-value store: one finite map over all column families, changed only by committing a batch of
  put and merge operations. Keys name the column family and the record; a value read back under the wrong
  type is a failed deserialisation. Three key families share the BlockHeight column family; module
  HeightKeys shows when they may be told apart, and module HeightStore that a run then reads the same from the bytes.
 */
module Database {
  import opened Primitives
  import opened Types

  datatype Key =
    | BlockKey(hash: BlockHash)
    | MetadataKey(hash: BlockHash)
    | ChildrenKey(hash: BlockHash)
    | HeightKey(height: nat)
    | CandidateKey(height: nat)
    | ConfirmedKey(height: nat)
    | TopCandidateKey
    | TopConfirmedKey
    | NephewsKey(hash: BlockHash)
    | BlockTxidsKey(hash: BlockHash)
    | BitcoinTxidsKey(hash: BlockHash)
    | TxBlocksKey(txid: Txid)
    | TxKey(txid: Txid)
    | InputKey(txid: Txid, index: nat)
    | OutputKey(txid: Txid, index: nat)
    | SpendKey(outpoint: OutPoint)

  datatype BlockMetadata = BlockMetadata(expectedHeight: Option<nat>, chainWork: nat)

  datatype TxMetadata = TxMetadata(txid: Txid, version: int, lockTime: nat, inputCount: nat, outputCount: nat,
      validated: bool)

  datatype Value =
    | Hashes(hashes: seq<BlockHash>)
    | Share(header: ShareHeader, txids: seq<Txid>, bitcoinTxids: seq<Txid>)
    | Metadata(metadata: BlockMetadata)
    | OneHash(hash: BlockHash)
    | Height(height: nat)
    | TxidList(txids: seq<Txid>)
    | TxMeta(tx: TxMetadata)
    | Input(input: TxIn)
    | Output(output: TxOut)
    | Spend(spender: OutPoint)

  type Db = map<Key, Value>

  datatype WriteOp = Put(key: Key, value: Value) | Merge(key: Key, operand: BlockHash)

  /** A pending write batch. */
  class WriteBatch {
    var ops: seq<WriteOp>

    constructor ()
      ensures ops == []
    {
      ops := [];
    }

    method PutCf(key: Key, value: Value)
      modifies this
      ensures ops == old(ops) + [Put(key, value)]
    {
      ops := ops + [Put(key, value)];
    }

    method MergeCf(key: Key, operand: BlockHash)
      modifies this
      ensures ops == old(ops) + [Merge(key, operand)]
    {
      ops := ops + [Merge(key, operand)];
    }
  }

  /** The list stored under a merge key; what does not decode as a list counts as empty. */
  function ListAt(db: Db, key: Key): seq<BlockHash> {
    if key in db && db[key].Hashes? then db[key].hashes else []
  }

  function Apply(db: Db, op: WriteOp): Db {
    match op
    case Put(key, value) => db[key := value]
    case Merge(key, operand) => db[key := Hashes(PushIfNew(ListAt(db, key), operand))]
  }

  /** `commit_batch`: the operations take effect in order, all at once. */
  function Commit(db: Db, ops: seq<WriteOp>): Db {
    if ops == [] then db else Apply(Commit(db, ops[..|ops| - 1]), ops[|ops| - 1])
  }

  lemma {:induction false} CommitConcat(db: Db, a: seq<WriteOp>, b: seq<WriteOp>)
    ensures Commit(db, a + b) == Commit(Commit(db, a), b)
  {
    if b == [] {
      assert a + b == a;
    } else {
      assert (a + b)[..|a + b| - 1] == a + b[..|b| - 1];
      CommitConcat(db, a, b[..|b| - 1]);
    }
  }

  /** No merge goes to `key`. */
  ghost predicate PutOnly(ops: seq<WriteOp>, key: Key) {
    forall h :: Merge(key, h) !in ops
  }

  /** No put goes to `key`. */
  ghost predicate MergeOnly(ops: seq<WriteOp>, key: Key) {
    forall v :: Put(key, v) !in ops
  }

  /** The value of the last put to `key`. */
  function LastPut(ops: seq<WriteOp>, key: Key): Option<Value> {
    if ops == [] then None
    else
      var op := ops[|ops| - 1];
      if op.Put? && op.key == key then Some(op.value) else LastPut(ops[..|ops| - 1], key)
  }

  lemma {:induction false} LastPutFacts(ops: seq<WriteOp>, key: Key)
    ensures LastPut(ops, key).None? <==> MergeOnly(ops, key)
    ensures LastPut(ops, key).Some? ==> Put(key, LastPut(ops, key).value) in ops
  {
    if ops == [] {
    } else {
      LastPutFacts(ops[..|ops| - 1], key);
      assert ops == ops[..|ops| - 1] + [ops[|ops| - 1]];
    }
  }

  lemma {:induction false} LastPutConcat(a: seq<WriteOp>, b: seq<WriteOp>, key: Key)
    ensures LastPut(a + b, key) == if LastPut(b, key).Some? then LastPut(b, key) else LastPut(a, key)
  {
    if b == [] {
      assert a + b == a;
    } else {
      assert (a + b)[..|a + b| - 1] == a + b[..|b| - 1];
      LastPutConcat(a, b[..|b| - 1], key);
    }
  }

  /** A key that is only put holds the last value put, or what it held before. */
  lemma {:induction false} CommitPut(db: Db, ops: seq<WriteOp>, key: Key)
    requires PutOnly(ops, key)
    ensures key in Commit(db, ops) <==> key in db || LastPut(ops, key).Some?
    ensures key in Commit(db, ops) ==>
              Commit(db, ops)[key] == if LastPut(ops, key).Some? then LastPut(ops, key).value else db[key]
  {
    if ops == [] {
    } else {
      assert ops == ops[..|ops| - 1] + [ops[|ops| - 1]];
      forall h ensures Merge(key, h) !in ops[..|ops| - 1] {
        assert Merge(key, h) !in ops;
      }
      CommitPut(db, ops[..|ops| - 1], key);
      assert ops[|ops| - 1] in ops;
    }
  }

  /** `next` has under `key` what `db` has and every operand sent there, each once. */
  ghost predicate MergedInto(db: Db, ops: seq<WriteOp>, key: Key, next: Db) {
    && (key in next <==> key in db || exists h :: Merge(key, h) in ops)
    && (key in next ==> next[key].Hashes?)
    && (forall h :: h in ListAt(next, key) <==> h in ListAt(db, key) || Merge(key, h) in ops)
    && (NoDup(ListAt(db, key)) ==> NoDup(ListAt(next, key)))
  }

  lemma MergeStep(db: Db, ops: seq<WriteOp>, op: WriteOp, key: Key, next: Db)
    requires MergedInto(db, ops, key, next) && (op.Put? ==> op.key != key)
    ensures MergedInto(db, ops + [op], key, Apply(next, op))
  {
    forall h ensures Merge(key, h) in ops + [op] <==> Merge(key, h) in ops || Merge(key, h) == op {
    }
    if op.key == key {
      assert op == Merge(key, op.operand);
    }
  }

  /** A key that is only merged into gains exactly the operands sent to it, without duplicates. */
  lemma {:induction false} CommitMerge(db: Db, ops: seq<WriteOp>, key: Key)
    requires MergeOnly(ops, key) && (key in db ==> db[key].Hashes?)
    ensures MergedInto(db, ops, key, Commit(db, ops))
  {
    if ops == [] {
    } else {
      var init, op := ops[..|ops| - 1], ops[|ops| - 1];
      assert ops == init + [op];
      forall v ensures Put(key, v) !in init {
        assert Put(key, v) !in ops;
      }
      CommitMerge(db, init, key);
      assert op in ops;
      MergeStep(db, init, op, key, Commit(db, init));
    }
  }

  // ----- reads -----

  function GetMetadata(db: Db, hash: BlockHash): Option<BlockMetadata> {
    if MetadataKey(hash) in db && db[MetadataKey(hash)].Metadata? then Some(db[MetadataKey(hash)].metadata) else None
  }

  function GetChildren(db: Db, hash: BlockHash): Option<seq<BlockHash>> {
    if ChildrenKey(hash) in db && db[ChildrenKey(hash)].Hashes? then Some(db[ChildrenKey(hash)].hashes) else None
  }

  function GetBlockhashesForHeight(db: Db, height: nat): seq<BlockHash> {
    ListAt(db, HeightKey(height))
  }

  function GetBlockhashesForTxid(db: Db, txid: Txid): seq<BlockHash> {
    ListAt(db, TxBlocksKey(txid))
  }

  function GetTxidsForBlockhash(db: Db, hash: BlockHash): seq<Txid> {
    if BlockTxidsKey(hash) in db && db[BlockTxidsKey(hash)].TxidList? then db[BlockTxidsKey(hash)].txids else []
  }

  function GetBitcoinTxidsForBlockhash(db: Db, hash: BlockHash): seq<Txid> {
    if BitcoinTxidsKey(hash) in db && db[BitcoinTxidsKey(hash)].TxidList? then db[BitcoinTxidsKey(hash)].txids else []
  }

  predicate IsAlreadyUncle(db: Db, hash: BlockHash) {
    NephewsKey(hash) in db
  }
}
