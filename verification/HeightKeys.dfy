/**
  The BlockHeight column family on bytes. Height lists (`h:` and the height), candidates (the height and `:c`),
  confirmed entries (the height and `:f`) and the two tops live under one key space.
 */
module HeightKeys {
  import opened Primitives
  import opened Codec
  import opened MergeOperator
  import opened OrderedStore

  const COLON: Byte := 0x3A
  const LOWER_C: Byte := 0x63
  const LOWER_F: Byte := 0x66
  const LOWER_H: Byte := 0x68

  /** `to_be_bytes`. */
  function BigEndian(n: Word32): (r: Bytes)
    ensures |r| == 4
  {
    ToBE(n, 4)
  }

  lemma BigEndianBytes(n: Word32)
    ensures BigEndian(n) == [n / 0x100_0000, n / 0x1_0000 % 256, n / 256 % 256, n % 256]
  {
    assert ToBE(n / 0x100_0000, 1) == [] + [n / 0x100_0000 % 256];
    assert ToBE(n / 0x1_0000, 2) == ToBE(n / 0x100_0000, 1) + [n / 0x1_0000 % 256];
    assert ToBE(n / 256, 3) == ToBE(n / 0x1_0000, 2) + [n / 256 % 256];
    assert ToBE(n, 4) == ToBE(n / 256, 3) + [n % 256];
  }

  /** The key of a record, by family. */
  datatype Record = HeightList(height: Word32) | Candidate(height: Word32) | Confirmed(height: Word32)
      | TopCandidate | TopConfirmed

  const TOP_CANDIDATE_KEY: Bytes := [0x6D, 0x65, 0x74, 0x61, 0x3A, 0x74, 0x6F, 0x70, 0x5F, 0x63, 0x61, 0x6E, 0x64,
      0x69, 0x64, 0x61, 0x74, 0x65, 0x5F, 0x68, 0x65, 0x69, 0x67, 0x68, 0x74]
  const TOP_CONFIRMED_KEY: Bytes := [0x6D, 0x65, 0x74, 0x61, 0x3A, 0x74, 0x6F, 0x70, 0x5F, 0x63, 0x6F, 0x6E, 0x66,
      0x69, 0x72, 0x6D, 0x65, 0x64, 0x5F, 0x68, 0x65, 0x69, 0x67, 0x68, 0x74]

  function KeyBytes(r: Record): Bytes {
    match r
    case HeightList(h) => [LOWER_H, COLON] + BigEndian(h)
    case Candidate(h) => BigEndian(h) + [COLON, LOWER_C]
    case Confirmed(h) => BigEndian(h) + [COLON, LOWER_F]
    case TopCandidate => TOP_CANDIDATE_KEY
    case TopConfirmed => TOP_CONFIRMED_KEY
  }

  /** The suffix of a candidate or confirmed key, read as the low half of a height. */
  function SuffixWord(r: Record): nat
    requires r.Candidate? || r.Confirmed?
  {
    if r.Candidate? then 0x3A63 else 0x3A66
  }

  lemma BigEndianInjective(a: Word32, b: Word32)
    requires BigEndian(a) == BigEndian(b)
    ensures a == b
  {
    assert Pow256(4) == 0x1_0000_0000 by {
      assert Pow256(2) == 0x1_0000;
    }
    FromToBE(a, 4);
    FromToBE(b, 4);
  }

  lemma WordFromBytes(n: Word32)
    ensures n == 0x100_0000 * (n / 0x100_0000) + 0x1_0000 * (n / 0x1_0000 % 256) + 256 * (n / 256 % 256) + n % 256
  {
    assert n / 256 == 256 * (n / 0x1_0000) + n / 256 % 256;
    assert n / 0x1_0000 == 256 * (n / 0x100_0000) + n / 0x1_0000 % 256;
  }

  /** A list key and an organised key of height `big` meet on exactly one list height. */
  ghost predicate Collide(list: Word32, r: Record) {
    (r.Candidate? || r.Confirmed?) && 0x683A_0000 <= r.height <= 0x683A_FFFF
    && list == (r.height % 0x1_0000) * 0x1_0000 + SuffixWord(r)
  }

  /** The six bytes of the two key shapes, compared one by one. */
  lemma ListMeetsOrganised(list: Word32, r: Record)
    requires r.Candidate? || r.Confirmed?
    ensures KeyBytes(HeightList(list)) == KeyBytes(r) <==> Collide(list, r)
  {
    var a, b, n, last := KeyBytes(HeightList(list)), KeyBytes(r), r.height, if r.Candidate? then LOWER_C else LOWER_F;
    WordFromBytes(list);
    WordFromBytes(n);
    BigEndianBytes(list);
    BigEndianBytes(n);
    assert a == [LOWER_H, COLON, list / 0x100_0000, list / 0x1_0000 % 256, list / 256 % 256, list % 256];
    assert b == [n / 0x100_0000, n / 0x1_0000 % 256, n / 256 % 256, n % 256, COLON, last];
    assert a == b <==> a[0] == b[0] && a[1] == b[1] && a[2] == b[2] && a[3] == b[3] && a[4] == b[4] && a[5] == b[5];
    HighHalf(n);
    SuffixHalf(list, n, last);
  }

  lemma HighHalf(n: Word32)
    ensures n / 0x100_0000 == 0x68 && n / 0x1_0000 % 256 == 0x3A <==> 0x683A_0000 <= n <= 0x683A_FFFF
  {
    WordFromBytes(n);
  }

  /** Base-256 digits are unique. */
  lemma SameDigits(a3: Byte, a2: Byte, a1: Byte, a0: Byte, b3: Byte, b2: Byte, b1: Byte, b0: Byte)
    ensures (0x100_0000 * a3 as nat + 0x1_0000 * a2 as nat + 256 * a1 as nat + a0 as nat
             == 0x100_0000 * b3 as nat + 0x1_0000 * b2 as nat + 256 * b1 as nat + b0 as nat)
       <==> a3 == b3 && a2 == b2 && a1 == b1 && a0 == b0
  {
  }

  lemma SuffixHalf(list: Word32, n: Word32, last: Byte)
    ensures list / 0x100_0000 == n / 256 % 256 && list / 0x1_0000 % 256 == n % 256 && list / 256 % 256 == COLON
            && list % 256 == last
       <==> list == (n % 0x1_0000) * 0x1_0000 + 0x3A00 + last
  {
    WordFromBytes(list);
    LowHalf(n);
    SameDigits(list / 0x100_0000, list / 0x1_0000 % 256, list / 256 % 256, list % 256, n / 256 % 256, n % 256, COLON,
        last);
  }

  lemma LowHalf(n: Word32)
    ensures n % 0x1_0000 == 256 * (n / 256 % 256) + n % 256
  {
  }

  /** Two records share a key exactly when they are the same record or a list key meets an organised key. */
  lemma KeysMeetIff(r: Record, s: Record)
    ensures KeyBytes(r) == KeyBytes(s)
       <==> r == s || (r.HeightList? && Collide(r.height, s)) || (s.HeightList? && Collide(s.height, r))
  {
    if r.HeightList? && (s.Candidate? || s.Confirmed?) {
      ListMeetsOrganised(r.height, s);
    } else if s.HeightList? && (r.Candidate? || r.Confirmed?) {
      ListMeetsOrganised(s.height, r);
    } else if KeyBytes(r) == KeyBytes(s) {
      SameShape(r, s);
    }
  }

  lemma SameShape(r: Record, s: Record)
    requires KeyBytes(r) == KeyBytes(s)
    requires r.HeightList? ==> !s.Candidate? && !s.Confirmed?
    requires s.HeightList? ==> !r.Candidate? && !r.Confirmed?
    ensures r == s
  {
    var a, b := KeyBytes(r), KeyBytes(s);
    assert |a| == |b|;
    if r.HeightList? && s.HeightList? {
      assert a[2..] == BigEndian(r.height) && b[2..] == BigEndian(s.height);
      BigEndianInjective(r.height, s.height);
    } else if (r.Candidate? || r.Confirmed?) && (s.Candidate? || s.Confirmed?) {
      assert a[..4] == BigEndian(r.height) && b[..4] == BigEndian(s.height);
      BigEndianInjective(r.height, s.height);
      assert a[5] == b[5];
    } else if (r.TopCandidate? && s.TopConfirmed?) || (r.TopConfirmed? && s.TopCandidate?) {
      assert false;
    }
  }

  // ----- one column family as five separate maps -----

  type ColumnFamily = map<Bytes, Bytes>

  datatype HeightOp =
    | MergeIntoList(height: Word32, hash: Bytes32)
    | PutCandidate(height: Word32, hash: Bytes32)
    | PutConfirmed(height: Word32, hash: Bytes32)
    | PutTopCandidate(top: Word32)
    | PutTopConfirmed(top: Word32)

  function Target(op: HeightOp): Record {
    match op
    case MergeIntoList(h, _) => HeightList(h)
    case PutCandidate(h, _) => Candidate(h)
    case PutConfirmed(h, _) => Confirmed(h)
    case PutTopCandidate(_) => TopCandidate
    case PutTopConfirmed(_) => TopConfirmed
  }

  /** What a reader gets for a record. */
  datatype RecordValue = ListOf(hashes: seq<Bytes32>) | HashOrNone(hash: Option<Bytes32>)
      | TopOrNone(top: Option<Word32>)

  function ValueAt(cf: ColumnFamily, key: Bytes): Option<Bytes> {
    if key in cf then Some(cf[key]) else None
  }

  /** Read a record from bytes; what does not decode reads as absent. */
  function ReadBytes(cf: ColumnFamily, r: Record): RecordValue {
    var v := ValueAt(cf, KeyBytes(r));
    match r
    case HeightList(_) => ListOf(Existing(v))
    case Candidate(_) => HashOrNone(if v.Some? then DeserializeHash(v.value) else None)
    case Confirmed(_) => HashOrNone(if v.Some? then DeserializeHash(v.value) else None)
    case TopCandidate => TopOrNone(DecTop(v))
    case TopConfirmed => TopOrNone(DecTop(v))
  }

  function DecTop(v: Option<Bytes>): Option<Word32> {
    if v.Some? && |v.value| == 4 then Some(DecU32(v.value).value) else None
  }

  /** The bytes an operation leaves under its key. */
  function NewBytes(cf: ColumnFamily, op: HeightOp): Bytes {
    match op
    case MergeIntoList(_, hash) => Merged(ValueAt(cf, KeyBytes(Target(op))), [hash])
    case PutCandidate(_, hash) => hash
    case PutConfirmed(_, hash) => hash
    case PutTopCandidate(top) => EncU32(top)
    case PutTopConfirmed(top) => EncU32(top)
  }

  /** The list has not reached the length of a machine word. */
  ghost predicate RoomFor(cf: ColumnFamily, op: HeightOp) {
    op.MergeIntoList? ==> |Existing(ValueAt(cf, KeyBytes(Target(op))))| + 1 < WORDS
  }

  function ApplyBytes(cf: ColumnFamily, op: HeightOp): ColumnFamily {
    cf[KeyBytes(Target(op)) := NewBytes(cf, op)]
  }

  /** The intended meaning: a separate entry for every record. */
  type Families = map<Record, RecordValue>

  function ReadFamilies(m: Families, r: Record): RecordValue {
    if r in m then m[r]
    else if r.HeightList? then ListOf([])
    else if r.Candidate? || r.Confirmed? then HashOrNone(None)
    else TopOrNone(None)
  }

  function ApplyFamilies(m: Families, op: HeightOp): Families {
    match op
    case MergeIntoList(h, hash) =>
      var was := ReadFamilies(m, HeightList(h));
      m[HeightList(h) := ListOf(PushIfNew(if was.ListOf? then was.hashes else [], hash))]
    case PutCandidate(h, hash) => m[Candidate(h) := HashOrNone(Some(hash))]
    case PutConfirmed(h, hash) => m[Confirmed(h) := HashOrNone(Some(hash))]
    case PutTopCandidate(top) => m[TopCandidate := TopOrNone(Some(top))]
    case PutTopConfirmed(top) => m[TopConfirmed := TopOrNone(Some(top))]
  }

  /** Below this height a candidate or confirmed key cannot be a list key. */
  predicate InRange(r: Record) {
    r.Candidate? || r.Confirmed? ==> r.height < 0x683A_0000
  }

  ghost predicate Refines(cf: ColumnFamily, m: Families) {
    forall r :: InRange(r) ==> ReadBytes(cf, r) == ReadFamilies(m, r)
  }

  lemma WriteReadsBack(cf: ColumnFamily, m: Families, op: HeightOp)
    requires RoomFor(cf, op) && ReadBytes(cf, Target(op)) == ReadFamilies(m, Target(op))
    ensures ReadBytes(ApplyBytes(cf, op), Target(op)) == ReadFamilies(ApplyFamilies(m, op), Target(op))
  {
    match op
    case MergeIntoList(h, hash) =>
      var v := ValueAt(cf, KeyBytes(HeightList(h)));
      var operands: seq<Bytes> := [hash];
      MergedDecodes(v, operands);
      assert operands[..0] == [];
    case PutTopCandidate(top) =>
      ReadsU32(top, []);
      assert EncU32(top) + [] == EncU32(top);
    case PutTopConfirmed(top) =>
      ReadsU32(top, []);
      assert EncU32(top) + [] == EncU32(top);
    case _ =>
  }

  /** Below the bound every write changes its own record and no other, as if the families were separate maps. */
  lemma WriteRefines(cf: ColumnFamily, m: Families, op: HeightOp)
    requires Refines(cf, m) && InRange(Target(op)) && RoomFor(cf, op)
    ensures Refines(ApplyBytes(cf, op), ApplyFamilies(m, op))
  {
    forall r | InRange(r) ensures ReadBytes(ApplyBytes(cf, op), r) == ReadFamilies(ApplyFamilies(m, op), r) {
      KeysMeetIff(r, Target(op));
      if r == Target(op) {
        WriteReadsBack(cf, m, op);
      }
    }
  }

  /** A run of writes on the shared column family, each with room in its list. */
  ghost predicate CanRun(cf: ColumnFamily, ops: seq<HeightOp>)
    decreases |ops|
  {
    ops == [] || (RoomFor(cf, ops[0]) && InRange(Target(ops[0])) && CanRun(ApplyBytes(cf, ops[0]), ops[1..]))
  }

  function RunBytes(cf: ColumnFamily, ops: seq<HeightOp>): ColumnFamily
    decreases |ops|
  {
    if ops == [] then cf else RunBytes(ApplyBytes(cf, ops[0]), ops[1..])
  }

  function RunFamilies(m: Families, ops: seq<HeightOp>): Families
    decreases |ops|
  {
    if ops == [] then m else RunFamilies(ApplyFamilies(m, ops[0]), ops[1..])
  }

  /** The shared column family refines separate maps over every run below the bound. */
  lemma {:induction false} RunRefines(cf: ColumnFamily, m: Families, ops: seq<HeightOp>)
    requires Refines(cf, m) && CanRun(cf, ops)
    ensures Refines(RunBytes(cf, ops), RunFamilies(m, ops))
    decreases |ops|
  {
    if ops == [] {
    } else {
      WriteRefines(cf, m, ops[0]);
      RunRefines(ApplyBytes(cf, ops[0]), ApplyFamilies(m, ops[0]), ops[1..]);
    }
  }

  /** Past the bound: adding a share at a colliding height destroys the candidate or confirmed entry it meets. */
  lemma CollisionDestroysEntry(cf: ColumnFamily, list: Word32, hash: Bytes32, r: Record)
    requires Collide(list, r)
    ensures ReadBytes(ApplyBytes(cf, MergeIntoList(list, hash)), r) == HashOrNone(None)
  {
    ListMeetsOrganised(list, r);
    MergedIsNoOperand(ValueAt(cf, KeyBytes(HeightList(list))), [hash]);
  }
}
