/** The candidate and confirmed indexes. Guards read the committed store; writes go to the batch. */
module Organise {
  import opened Primitives
  import opened Types
  import opened Database

  function GetTopCandidateHeight(db: Db): Option<nat> {
    if TopCandidateKey in db && db[TopCandidateKey].Height? then Some(db[TopCandidateKey].height) else None
  }

  function GetTopConfirmedHeight(db: Db): Option<nat> {
    if TopConfirmedKey in db && db[TopConfirmedKey].Height? then Some(db[TopConfirmedKey].height) else None
  }

  function GetCandidateAtHeight(db: Db, height: nat): Option<BlockHash> {
    if CandidateKey(height) in db && db[CandidateKey(height)].OneHash? then Some(db[CandidateKey(height)].hash)
        else None
  }

  function GetConfirmedAtHeight(db: Db, height: nat): Option<BlockHash> {
    if ConfirmedKey(height) in db && db[ConfirmedKey(height)].OneHash? then Some(db[ConfirmedKey(height)].hash)
        else None
  }

  /** The height guard of both indexes: nothing is there yet, or the height is one above the committed top. */
  predicate NextAfter(top: Option<nat>, height: nat) {
    top.None? || SaturatingSub(height, top.value) == 1
  }

  function CandidateOps(db: Db, hash: BlockHash, height: nat): seq<WriteOp> {
    [Put(CandidateKey(height), OneHash(hash))]
    + (if NextAfter(GetTopCandidateHeight(db), height) then [Put(TopCandidateKey, Height(height))] else [])
  }

  function ConfirmOps(db: Db, hash: BlockHash, height: nat): seq<WriteOp> {
    if NextAfter(GetTopConfirmedHeight(db), height)
    then [Put(ConfirmedKey(height), OneHash(hash)), Put(TopConfirmedKey, Height(height))]
    else []
  }

  /** `make_candidate`. */
  method MakeCandidate(db: Db, hash: BlockHash, height: nat, batch: WriteBatch)
    modifies batch
    ensures batch.ops == old(batch.ops) + CandidateOps(db, hash, height)
  {
    batch.PutCf(CandidateKey(height), OneHash(hash));
    var currentTop := GetTopCandidateHeight(db);
    if currentTop.None? || SaturatingSub(height, currentTop.value) == 1 {
      batch.PutCf(TopCandidateKey, Height(height));
    }
  }

  /** `make_confirmed`. */
  method MakeConfirmed(db: Db, hash: BlockHash, height: nat, batch: WriteBatch)
    modifies batch
    ensures batch.ops == old(batch.ops) + ConfirmOps(db, hash, height)
  {
    var currentTop := GetTopConfirmedHeight(db);
    var isValidHeight := currentTop.None? || SaturatingSub(height, currentTop.value) == 1;
    if !isValidHeight {
      return;
    }
    batch.PutCf(ConfirmedKey(height), OneHash(hash));
    batch.PutCf(TopConfirmedKey, Height(height));
  }

  /** `is_confirmed`. */
  predicate IsConfirmed(db: Db, hash: BlockHash) {
    var metadata := GetMetadata(db, hash);
    && metadata.Some? && metadata.value.expectedHeight.Some?
    && GetConfirmedAtHeight(db, metadata.value.expectedHeight.value) == Some(hash)
  }

  ghost predicate OccupiesSlot(db: Db, hash: BlockHash) {
    exists h :: GetConfirmedAtHeight(db, h) == Some(hash)
  }
}
