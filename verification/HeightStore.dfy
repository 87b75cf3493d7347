/** The BlockHeight column family of a whole run, on bytes: below the bound it reads as the model's separate keys. */
module HeightStore {
  import opened Primitives
  import opened Types
  import opened Codec
  import opened Database
  import opened TransactionStore
  import opened ShareStore
  import opened Organise
  import opened Runs
  import opened HeightKeys

  /** Hashes are written as 32 bytes, different hashes as different bytes. */
  ghost predicate Injective(enc: BlockHash -> Bytes32) {
    forall a, b :: enc(a) == enc(b) ==> a == b
  }

  function Encoded(enc: BlockHash -> Bytes32, hs: seq<BlockHash>): (r: seq<Bytes32>)
    ensures |r| == |hs| && forall i :: 0 <= i < |hs| ==> r[i] == enc(hs[i])
  {
    seq(|hs|, i requires 0 <= i < |hs| => enc(hs[i]))
  }

  function EncodedHash(enc: BlockHash -> Bytes32, h: Option<BlockHash>): Option<Bytes32> {
    if h.Some? then Some(enc(h.value)) else None
  }

  function AsWord(n: Option<nat>): Option<Word32> {
    if n.Some? && n.value < U32 then Some(n.value) else None
  }

  /** The write to the column family that an operation is, if it is one. */
  function AsHeightOp(op: WriteOp, enc: BlockHash -> Bytes32): Option<HeightOp> {
    if op.Merge? && op.key.HeightKey? && op.key.height < U32 then Some(MergeIntoList(op.key.height, enc(op.operand)))
    else if op.Put? && op.key.CandidateKey? && op.key.height < U32 && op.value.OneHash?
    then Some(PutCandidate(op.key.height, enc(op.value.hash)))
    else if op.Put? && op.key.ConfirmedKey? && op.key.height < U32 && op.value.OneHash?
    then Some(PutConfirmed(op.key.height, enc(op.value.hash)))
    else if op.Put? && op.key.TopCandidateKey? && op.value.Height? && op.value.height < U32
    then Some(PutTopCandidate(op.value.height))
    else if op.Put? && op.key.TopConfirmedKey? && op.value.Height? && op.value.height < U32
    then Some(PutTopConfirmed(op.value.height))
    else None
  }

  /** The bytes of the column family after the operations. */
  function BytesOf(ops: seq<WriteOp>, enc: BlockHash -> Bytes32): ColumnFamily {
    if ops == [] then map[]
    else
      var cf, op := BytesOf(ops[..|ops| - 1], enc), AsHeightOp(ops[|ops| - 1], enc);
      if op.Some? then ApplyBytes(cf, op.value) else cf
  }

  /** The same operations on separate families. */
  function FamiliesOf(ops: seq<WriteOp>, enc: BlockHash -> Bytes32): Families {
    if ops == [] then map[]
    else
      var m, op := FamiliesOf(ops[..|ops| - 1], enc), AsHeightOp(ops[|ops| - 1], enc);
      if op.Some? then ApplyFamilies(m, op.value) else m
  }

  /** What the model's store holds for a record. */
  function View(db: Db, r: Record, enc: BlockHash -> Bytes32): RecordValue {
    match r
    case HeightList(h) => ListOf(Encoded(enc, GetBlockhashesForHeight(db, h)))
    case Candidate(h) => HashOrNone(EncodedHash(enc, GetCandidateAtHeight(db, h)))
    case Confirmed(h) => HashOrNone(EncodedHash(enc, GetConfirmedAtHeight(db, h)))
    case TopCandidate => TopOrNone(AsWord(GetTopCandidateHeight(db)))
    case TopConfirmed => TopOrNone(AsWord(GetTopConfirmedHeight(db)))
  }

  ghost predicate Tells(m: Families, db: Db, enc: BlockHash -> Bytes32) {
    forall r :: ReadFamilies(m, r) == View(db, r, enc)
  }

  /**
    The heights fit 32 bits, those of candidates and confirmed entries stay below the bound, and values have their
    type.
   */
  predicate Bounded(op: WriteOp) {
    match op.key
    case HeightKey(h) => op.Merge? && h < U32
    case CandidateKey(h) => op.Put? && op.value.OneHash? && h < 0x683A_0000
    case ConfirmedKey(h) => op.Put? && op.value.OneHash? && h < 0x683A_0000
    case TopCandidateKey => op.Put? && op.value.Height? && op.value.height < U32
    case TopConfirmedKey => op.Put? && op.value.Height? && op.value.height < U32
    case _ => true
  }

  lemma EncodedPush(enc: BlockHash -> Bytes32, hs: seq<BlockHash>, h: BlockHash)
    requires Injective(enc)
    ensures Encoded(enc, PushIfNew(hs, h)) == PushIfNew(Encoded(enc, hs), enc(h))
  {
    if h in hs {
      var i :| 0 <= i < |hs| && hs[i] == h;
      assert Encoded(enc, hs)[i] == enc(h);
    } else {
      assert Encoded(enc, hs + [h]) == Encoded(enc, hs) + [enc(h)];
    }
  }

  /** The record an operation writes, read back from the model. */
  lemma WrittenView(db: Db, m: Families, op: WriteOp, enc: BlockHash -> Bytes32)
    requires Injective(enc) && Bounded(op) && AsHeightOp(op, enc).Some?
    requires var r := Target(AsHeightOp(op, enc).value); ReadFamilies(m, r) == View(db, r, enc)
    ensures var hop := AsHeightOp(op, enc).value;
            ReadFamilies(ApplyFamilies(m, hop), Target(hop)) == View(Apply(db, op), Target(hop), enc)
  {
    if op.Merge? {
      EncodedPush(enc, GetBlockhashesForHeight(db, op.key.height), op.operand);
    }
  }

  /** The key a record is stored under in the model. */
  function ModelKey(r: Record): Key {
    match r
    case HeightList(h) => HeightKey(h)
    case Candidate(h) => CandidateKey(h)
    case Confirmed(h) => ConfirmedKey(h)
    case TopCandidate => TopCandidateKey
    case TopConfirmed => TopConfirmedKey
  }

  lemma OtherView(db: Db, op: WriteOp, r: Record, enc: BlockHash -> Bytes32)
    requires op.key != ModelKey(r)
    ensures View(Apply(db, op), r, enc) == View(db, r, enc)
  {
    var next := Apply(db, op);
    assert ModelKey(r) in next <==> ModelKey(r) in db;
    assert ModelKey(r) in db ==> next[ModelKey(r)] == db[ModelKey(r)];
  }

  lemma OtherFamily(m: Families, hop: HeightOp, r: Record)
    requires r != Target(hop)
    ensures ReadFamilies(ApplyFamilies(m, hop), r) == ReadFamilies(m, r)
  {
  }

  lemma TargetKey(op: WriteOp, enc: BlockHash -> Bytes32, r: Record)
    requires Bounded(op)
    ensures AsHeightOp(op, enc).Some? ==> (op.key == ModelKey(r) <==> r == Target(AsHeightOp(op, enc).value))
    ensures AsHeightOp(op, enc).None? ==> op.key != ModelKey(r)
  {
  }

  lemma StepTells(db: Db, m: Families, op: WriteOp, enc: BlockHash -> Bytes32)
    requires Injective(enc) && Bounded(op) && Tells(m, db, enc)
    ensures var hop := AsHeightOp(op, enc);
            Tells(if hop.Some? then ApplyFamilies(m, hop.value) else m, Apply(db, op), enc)
  {
    var hop := AsHeightOp(op, enc);
    var next := if hop.Some? then ApplyFamilies(m, hop.value) else m;
    forall r ensures ReadFamilies(next, r) == View(Apply(db, op), r, enc) {
      TargetKey(op, enc, r);
      if hop.Some? && r == Target(hop.value) {
        WrittenView(db, m, op, enc);
      } else {
        OtherView(db, op, r, enc);
        if hop.Some? {
          OtherFamily(m, hop.value, r);
        }
      }
    }
  }

  ghost predicate ListsShort(db: Db, n: nat) {
    forall h: nat :: |GetBlockhashesForHeight(db, h)| <= n
  }

  lemma StepShort(db: Db, op: WriteOp, n: nat)
    requires Bounded(op) && ListsShort(db, n)
    ensures ListsShort(Apply(db, op), n + 1)
  {
    forall h: nat ensures |GetBlockhashesForHeight(Apply(db, op), h)| <= n + 1 {
      assert |GetBlockhashesForHeight(db, h)| <= n;
      if op.key != HeightKey(h) {
        assert GetBlockhashesForHeight(Apply(db, op), h) == GetBlockhashesForHeight(db, h);
      }
    }
  }

  lemma StepRefines(cf: ColumnFamily, db: Db, m: Families, op: WriteOp, enc: BlockHash -> Bytes32, n: nat)
    requires Refines(cf, m) && Tells(m, db, enc) && Bounded(op) && ListsShort(db, n) && n + 1 < WORDS
    ensures var hop := AsHeightOp(op, enc);
            hop.Some? ==> Refines(ApplyBytes(cf, hop.value), ApplyFamilies(m, hop.value))
  {
    var hop := AsHeightOp(op, enc);
    if hop.Some? {
      if hop.value.MergeIntoList? {
        var r := Target(hop.value);
        assert ReadBytes(cf, r) == ReadFamilies(m, r) == View(db, r, enc);
      }
      WriteRefines(cf, m, hop.value);
    }
  }

  ghost predicate Tracks(ops: seq<WriteOp>, enc: BlockHash -> Bytes32) {
    && Refines(BytesOf(ops, enc), FamiliesOf(ops, enc))
    && Tells(FamiliesOf(ops, enc), Commit(map[], ops), enc)
    && ListsShort(Commit(map[], ops), |ops|)
  }

  lemma {:induction false} OpsTrack(ops: seq<WriteOp>, enc: BlockHash -> Bytes32)
    requires Injective(enc) && |ops| < WORDS && forall op :: op in ops ==> Bounded(op)
    ensures Tracks(ops, enc)
  {
    if ops == [] {
      EmptyTracks(enc);
    } else {
      var init, op := ops[..|ops| - 1], ops[|ops| - 1];
      OpsTrack(init, enc);
      assert op in ops;
      StepTells(Commit(map[], init), FamiliesOf(init, enc), op, enc);
      StepShort(Commit(map[], init), op, |init|);
      StepRefines(BytesOf(init, enc), Commit(map[], init), FamiliesOf(init, enc), op, enc, |init|);
    }
  }

  lemma EmptyTracks(enc: BlockHash -> Bytes32)
    ensures Tracks([], enc)
  {
  }

  // ----- runs -----

  predicate BoundedCall(c: Call) {
    match c
    case AddShareCall(_, height, _, _) => height < U32
    case MakeCandidateCall(_, height) => height < 0x683A_0000
    case MakeConfirmedCall(_, height) => height < 0x683A_0000
    case _ => true
  }

  lemma ShareIsBounded(share: ShareBlock, height: nat, work: nat, confirmTxs: bool, op: WriteOp)
    requires height < U32 && op in ShareOps(share, height, work, confirmTxs)
    ensures Bounded(op)
  {
    ShareOpsAre(share, height, work, confirmTxs, op);
    var r := RecordOps(share, height, work);
    if op in r {
      assert op == r[0] || op == r[1] || op == r[2];
    } else if !IsIndexOp(share, op) {
      TxOpKind(share.transactions, confirmTxs, op);
    }
  }

  lemma OtherIsBounded(db: Db, call: Call, op: WriteOp)
    requires !call.AddShareCall? && !call.AddTxsCall? && BoundedCall(call) && op in CallOps(db, call)
    ensures Bounded(op)
  {
  }

  lemma CallIsBounded(db: Db, call: Call, op: WriteOp)
    requires BoundedCall(call) && op in CallOps(db, call)
    ensures Bounded(op)
  {
    match call
    case AddShareCall(share, height, work, confirmTxs) => ShareIsBounded(share, height, work, confirmTxs, op);
    case AddTxsCall(txs, onMainChain) =>
      TxsOpsAre(txs, onMainChain, op);
      TxOpKind(txs, onMainChain, op);
    case _ => OtherIsBounded(db, call, op);
  }

  lemma {:induction false} BatchIsBounded(db: Db, calls: seq<Call>, op: WriteOp)
    requires op in BatchOps(db, calls) && forall c :: c in calls ==> BoundedCall(c)
    ensures Bounded(op)
  {
    var init, last := calls[..|calls| - 1], calls[|calls| - 1];
    if op in BatchOps(db, init) {
      BatchIsBounded(db, init, op);
    } else {
      CallIsBounded(db, last, op);
    }
  }

  lemma {:induction false} RunIsBounded(db: Db, run: Run, op: WriteOp)
    requires op in AllOps(db, run) && forall c :: c in Calls(run) ==> BoundedCall(c)
    ensures Bounded(op)
  {
    var init := run[..|run| - 1];
    if op in AllOps(db, init) {
      RunIsBounded(db, init, op);
    } else {
      BatchIsBounded(After(db, init), run[|run| - 1], op);
    }
  }

  /** The bytes of the column family after a run. */
  function BytesAfter(run: Run, enc: BlockHash -> Bytes32): ColumnFamily {
    BytesOf(AllOps(map[], run), enc)
  }

  /** After every run below the bound each record reads from the bytes as the model's store has it. */
  lemma RunReadsBack(run: Run, enc: BlockHash -> Bytes32, r: Record)
    requires Injective(enc) && |AllOps(map[], run)| < WORDS && forall c :: c in Calls(run) ==> BoundedCall(c)
    requires InRange(r)
    ensures ReadBytes(BytesAfter(run, enc), r) == View(After(map[], run), r, enc)
  {
    var ops := AllOps(map[], run);
    forall op | op in ops ensures Bounded(op) {
      RunIsBounded(map[], run, op);
    }
    OpsTrack(ops, enc);
    AfterIsOneCommit(map[], run);
  }
}
