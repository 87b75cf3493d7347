/** Jobs and PPLNS shares, kept under big-endian time keys, queried from the newest back and pruned by age. */
module TimeStores {
  import opened Primitives
  import opened Codec
  import opened OrderedStore

  const MAX_U64: Word64 := WORDS - 1

  function SaturatingSucc(a: Word64): Word64 {
    if a == MAX_U64 then a else a + 1
  }

  // ----- jobs -----

  type Jobs = map<Bytes, string>

  datatype Job = Job(time: Word64, data: string)

  /** Only `add_job` writes here, so every key is a timestamp. */
  ghost predicate JobKeys(jobs: Jobs) {
    forall k :: k in jobs ==> |k| == 8
  }

  /** The first `n` scanned entries as jobs; a key of another length is an error. */
  function JobsFrom(jobs: Jobs, scan: seq<Bytes>, n: nat): Result<seq<Job>>
    requires n <= |scan| && forall k :: k in scan ==> k in jobs
  {
    if n == 0 then Ok([])
    else
      var sofar := JobsFrom(jobs, scan, n - 1);
      if sofar.Err? || |scan[n - 1]| != 8 then Err
      else
        Key8Of(scan[n - 1]);
        Ok(sofar.value + [Job(FromBE(scan[n - 1]), jobs[scan[n - 1]])])
  }

  lemma {:induction false} JobsFromStuck(jobs: Jobs, scan: seq<Bytes>, n: nat, m: nat)
    requires n <= m <= |scan| && (forall k :: k in scan ==> k in jobs) && JobsFrom(jobs, scan, n).Err?
    ensures JobsFrom(jobs, scan, m).Err?
    decreases m
  {
    if n < m {
      JobsFromStuck(jobs, scan, n, m - 1);
    }
  }

  function LowerBound(start: Option<Word64>): Option<Bytes> {
    if start.Some? then Some(Key8(start.value)) else None
  }

  /** `js` is, newest first, the newest `limit` jobs with times from `lo` to `hi`. */
  ghost predicate Newest(jobs: Jobs, lo: Word64, hi: Word64, limit: nat, js: seq<Job>) {
    && |js| <= limit
    && (forall i, j :: 0 <= i < j < |js| ==> js[j].time < js[i].time)
    && (forall j :: j in js ==> Key8(j.time) in jobs && jobs[Key8(j.time)] == j.data && lo <= j.time <= hi)
    && (forall t: Word64 :: lo <= t <= hi && Key8(t) in jobs ==>
          HasTime(js, t) || (|js| == limit && forall j :: j in js ==> t < j.time))
  }

  ghost predicate HasTime(js: seq<Job>, t: Word64) {
    exists i :: 0 <= i < |js| && js[i].time == t
  }

  lemma InScanIsTime(start: Option<Word64>, hi: Word64, t: Word64)
    ensures InScan(LowerBound(start), Key8(hi), Key8(t)) <==> (if start.Some? then start.value else 0) <= t <= hi
  {
    Key8Order(t, hi);
    if start.Some? {
      Key8Order(start.value, t);
    }
  }

  lemma {:induction false} JobsFromAt(jobs: Jobs, scan: seq<Bytes>, n: nat)
    requires n <= |scan| && (forall k :: k in scan ==> k in jobs && |k| == 8)
    ensures JobsFrom(jobs, scan, n).Ok? && |JobsFrom(jobs, scan, n).value| == n
    ensures forall i :: 0 <= i < n ==>
            FromBE(scan[i]) < WORDS && JobsFrom(jobs, scan, n).value[i] == Job(FromBE(scan[i]), jobs[scan[i]])
  {
    if n == 0 {
    } else {
      JobsFromAt(jobs, scan, n - 1);
      assert scan[n - 1] in scan;
      Key8Of(scan[n - 1]);
    }
  }

  ghost predicate AllTimes(scan: seq<Bytes>) {
    forall k :: k in scan ==> |k| == 8
  }

  lemma ScanDescends(scan: seq<Bytes>, i: nat, j: nat)
    requires AllTimes(scan) && i < j < |scan| && LexLess(scan[j], scan[i])
    ensures FromBE(scan[j]) < FromBE(scan[i])
  {
    assert scan[i] in scan && scan[j] in scan;
    ByteOrderIsNumeric(scan[j], scan[i]);
  }

  lemma ScannedInRange(jobs: Jobs, start: Option<Word64>, hi: Word64, scan: seq<Bytes>, j: Job, i: nat)
    requires AllTimes(scan) && IsReverseScan(jobs.Keys, LowerBound(start), Key8(hi), scan)
    requires i < |scan| && j.time == FromBE(scan[i]) && scan[i] in jobs && j.data == jobs[scan[i]]
    ensures Key8(j.time) in jobs && jobs[Key8(j.time)] == j.data && (if start.Some? then start.value else 0)
            <= j.time <= hi
  {
    assert scan[i] in scan;
    Key8Of(scan[i]);
    InScanIsTime(start, hi, j.time);
  }

  lemma TimeIsScanned(jobs: Jobs, start: Option<Word64>, hi: Word64, scan: seq<Bytes>, t: Word64) returns (p: nat)
    requires IsReverseScan(jobs.Keys, LowerBound(start), Key8(hi), scan)
    requires (if start.Some? then start.value else 0) <= t <= hi && Key8(t) in jobs
    ensures p < |scan| && scan[p] == Key8(t) && FromBE(scan[p]) == t
  {
    InScanIsTime(start, hi, t);
    Key8Order(t, t);
    p :| p < |scan| && scan[p] == Key8(t);
  }

  lemma ScanIsNewest(jobs: Jobs, start: Option<Word64>, hi: Word64, limit: nat, scan: seq<Bytes>)
    requires JobKeys(jobs) && IsReverseScan(jobs.Keys, LowerBound(start), Key8(hi), scan)
    ensures var r := JobsFrom(jobs, scan, Min(limit, |scan|));
            r.Ok? && Newest(jobs, if start.Some? then start.value else 0, hi, limit, r.value)
  {
    var n := Min(limit, |scan|);
    JobsFromAt(jobs, scan, n);
    var js, lo := JobsFrom(jobs, scan, n).value, if start.Some? then start.value else 0;
    forall i, j | 0 <= i < j < |scan| ensures FromBE(scan[j]) < FromBE(scan[i]) {
      ScanDescends(scan, i, j);
    }
    forall j | j in js ensures Key8(j.time) in jobs && jobs[Key8(j.time)] == j.data && lo <= j.time <= hi {
      var i :| 0 <= i < |js| && js[i] == j;
      ScannedInRange(jobs, start, hi, scan, j, i);
    }
    forall t: Word64 | lo <= t <= hi && Key8(t) in jobs
      ensures HasTime(js, t) || (|js| == limit && forall j :: j in js ==> t < j.time)
    {
      var p := TimeIsScanned(jobs, start, hi, scan, t);
      if p < n {
        assert js[p].time == t;
      }
    }
  }

  /** The age limit both prunings use. */
  function Cutoff(now: Word64, ttl: Word64): Word64 {
    SaturatingSub(now, ttl)
  }

  /**
    What is stored at time `t` is older than `ttl` allows. A limit that reaches back beyond time 0 still takes what is
    stored at 0, and what is stored at the last representable time is never taken.
   */
  predicate TooOld(now: Word64, ttl: Word64, t: Word64) {
    (t + ttl <= now || (now < ttl && t == 0)) && t != 0xFFFF_FFFF_FFFF_FFFF
  }

  lemma CutoffIsAge(now: Word64, ttl: Word64, t: Word64)
    ensures TooOld(now, ttl, t) <==> t <= Cutoff(now, ttl) && !(Cutoff(now, ttl) == MAX_U64 && t == MAX_U64)
  {
  }

  /** The jobs left by a range delete up to just past the cutoff. */
  function PrunedJobs(jobs: Jobs, cutoff: Word64): Jobs {
    DeleteRange(jobs, Key8(0), Key8(SaturatingSucc(cutoff)))
  }

  /** Pruning removes exactly the jobs at or before the cutoff, unless the cutoff is the last representable time. */
  lemma PruneJobsExact(jobs: Jobs, cutoff: Word64, t: Word64)
    requires Key8(t) in jobs
    ensures Key8(t) !in PrunedJobs(jobs, cutoff) <==> t <= cutoff && !(cutoff == MAX_U64 && t == MAX_U64)
    ensures Key8(t) in PrunedJobs(jobs, cutoff) ==> PrunedJobs(jobs, cutoff)[Key8(t)] == jobs[Key8(t)]
  {
    Key8Order(0, t);
    Key8Order(t, SaturatingSucc(cutoff));
  }

  /** A query that starts after the cutoff gives the same answer before and after pruning. */
  lemma PruneKeepsJobQueries(jobs: Jobs, cutoff: Word64, start: Word64, hi: Word64, scan: seq<Bytes>,
                             scan': seq<Bytes>, n: nat)
    requires JobKeys(jobs) && cutoff < start
    requires IsReverseScan(jobs.Keys, Some(Key8(start)), Key8(hi), scan)
    requires IsReverseScan(PrunedJobs(jobs, cutoff).Keys, Some(Key8(start)), Key8(hi), scan')
    requires n <= |scan|
    ensures scan == scan'
    ensures (forall k :: k in scan ==> k in PrunedJobs(jobs, cutoff)) && JobsFrom(jobs, scan, n)
            == JobsFrom(PrunedJobs(jobs, cutoff), scan, n)
  {
    forall k | k in scan ensures k in PrunedJobs(jobs, cutoff) {
      Key8Of(k);
      InScanIsTime(Some(start), hi, FromBE(k));
      PruneJobsExact(jobs, cutoff, FromBE(k));
    }
    ScanUnique(scan, scan');
    SameJobs(jobs, PrunedJobs(jobs, cutoff), scan, n);
  }

  lemma {:induction false} SameJobs(a: Jobs, b: Jobs, scan: seq<Bytes>, n: nat)
    requires n <= |scan| && forall k :: k in scan ==> k in a && k in b && a[k] == b[k]
    ensures JobsFrom(a, scan, n) == JobsFrom(b, scan, n)
  {
    if n == 0 {
    } else {
      SameJobs(a, b, scan, n - 1);
      assert scan[n - 1] in scan;
    }
  }

  // ----- PPLNS shares -----

  /** A PPLNS share as stored: difficulty and job fields are opaque, the address is not stored. */
  datatype PplnsShare = PplnsShare(userId: Word64, nTime: Word64, payload: nat, btcaddress: Option<string>)

  type Shares = map<Bytes, PplnsShare>

  /** `make_key`: time, user, sequence, eight bytes each. */
  function MakeKey(time: Word64, user: Word64, seqNo: Word64): (r: Bytes)
    ensures |r| == 24
  {
    Key8(time) + (Key8(user) + Key8(seqNo))
  }

  /** Share keys are ordered by time, then user, then sequence. */
  lemma MakeKeyOrder(t: Word64, u: Word64, q: Word64, t': Word64, u': Word64, q': Word64)
    ensures LexLeq(MakeKey(t, u, q), MakeKey(t', u', q')) <==> t < t' || (t == t' && (u < u' || (u == u' && q <= q')))
    ensures MakeKey(t, u, q) == MakeKey(t', u', q') <==> t == t' && u == u' && q == q'
  {
    Key8Order(t, t');
    Key8Order(u, u');
    Key8Order(q, q');
    LexConcat(Key8(t), Key8(u) + Key8(q), Key8(t'), Key8(u') + Key8(q'));
    LexConcat(Key8(u), Key8(q), Key8(u'), Key8(q'));
    if MakeKey(t, u, q) == MakeKey(t', u', q') {
      assert MakeKey(t, u, q)[..8] == Key8(t) && MakeKey(t', u', q')[..8] == Key8(t');
      assert MakeKey(t, u, q)[8..16] == Key8(u) && MakeKey(t', u', q')[8..16] == Key8(u');
      assert MakeKey(t, u, q)[16..] == Key8(q) && MakeKey(t', u', q')[16..] == Key8(q');
    }
  }

  ghost predicate ShareKeys(shares: Shares) {
    forall k :: k in shares ==> |k| == 24
  }

  /** Every 24-byte key is a share key. */
  lemma KeyParts(k: Bytes) returns (t: Word64, u: Word64, q: Word64)
    requires |k| == 24
    ensures k == MakeKey(t, u, q) && t == TimeOf(k)
  {
    Key8Of(k[..8]);
    Key8Of(k[8..16]);
    Key8Of(k[16..]);
    t, u, q := FromBE(k[..8]), FromBE(k[8..16]), FromBE(k[16..]);
    assert k == k[..8] + (k[8..16] + k[16..]);
  }

  function TimeOf(k: Bytes): Word64
    requires |k| == 24
  {
    Key8Of(k[..8]);
    FromBE(k[..8])
  }

  /** Seconds to microseconds, in 64 bits. */
  function Micros(seconds: Word64): Word64 {
    (seconds * 1_000_000) % WORDS
  }

  function ShareLower(start: Option<Word64>): Option<Bytes> {
    if start.Some? then Some(MakeKey(Micros(start.value), 0, 0)) else None
  }

  function ShareFrom(end: Option<Word64>, now: Word64): Bytes {
    MakeKey(if end.Some? then Micros(end.value) else now, MAX_U64, MAX_U64)
  }

  /** The microseconds a query over seconds covers, both ends included; the conversion wraps at 64 bits. */
  predicate InQuery(start: Option<Word64>, end: Option<Word64>, now: Word64, t: Word64) {
    && (start.Some? ==> start.value * 1_000_000 % 0x1_0000_0000_0000_0000 <= t)
    && t <= (if end.Some? then end.value * 1_000_000 % 0x1_0000_0000_0000_0000 else now)
  }

  /** The bounds select exactly the times from start to end, both included, newest first. */
  lemma ShareScanByTime(shares: Shares, start: Option<Word64>, end: Option<Word64>, now: Word64, scan: seq<Bytes>)
    requires ShareKeys(shares) && IsReverseScan(shares.Keys, ShareLower(start), ShareFrom(end, now), scan)
    ensures forall k :: k in scan ==> |k| == 24
    ensures forall k :: k in scan <==> k in shares && InQuery(start, end, now, TimeOf(k))
    ensures forall i, j :: 0 <= i < j < |scan| ==> TimeOf(scan[j]) <= TimeOf(scan[i])
  {
    forall k | k in shares
      ensures InScan(ShareLower(start), ShareFrom(end, now), k) <==> InQuery(start, end, now, TimeOf(k))
    {
      var t, u, q := KeyParts(k);
      MakeKeyOrder(t, u, q, if end.Some? then Micros(end.value) else now, MAX_U64, MAX_U64);
      if start.Some? {
        MakeKeyOrder(Micros(start.value), 0, 0, t, u, q);
      }
    }
    forall i, j | 0 <= i < j < |scan| ensures |scan[i]| == 24 && |scan[j]| == 24 && TimeOf(scan[j]) <= TimeOf(scan[i]) {
      assert scan[i] in scan && scan[j] in scan && LexLess(scan[j], scan[i]);
      var t, u, q := KeyParts(scan[i]);
      var t', u', q' := KeyParts(scan[j]);
      MakeKeyOrder(t', u', q', t, u, q);
    }
  }

  /** The key a share with generated id `id` is stored under. */
  function ShareKey(share: PplnsShare, id: Word64): (r: Bytes)
    ensures |r| == 24
  {
    MakeKey(Micros(share.nTime), share.userId, id)
  }

  /** The three parts of a share's key: its time in microseconds, its user, its id. */
  lemma ShareKeyParts(share: PplnsShare, id: Word64)
    ensures var k := ShareKey(share, id);
            && TimeOf(k) == share.nTime * 1_000_000 % 0x1_0000_0000_0000_0000
            && FromBE(k[8..16]) == share.userId && FromBE(k[16..]) == id
  {
    var k := ShareKey(share, id);
    assert k[..8] == Key8(Micros(share.nTime)) && k[8..16] == Key8(share.userId) && k[16..] == Key8(id);
    Key8Order(Micros(share.nTime), 0);
    Key8Order(share.userId, 0);
    Key8Order(id, 0);
  }

  const INITIAL_SHARE_VEC_CAPACITY: nat := 100_000

  /** `populate_btcaddresses`: shares of unknown users are dropped. */
  function Populate(shares: seq<PplnsShare>, users: map<Word64, string>): seq<PplnsShare> {
    if shares == [] then []
    else
      var s := shares[|shares| - 1];
      Populate(shares[..|shares| - 1], users)
          + (if s.userId in users then [s.(btcaddress := Some(users[s.userId]))] else [])
  }

  /** `s` comes out as `t`, with its user's address. */
  predicate ComesOut(s: PplnsShare, users: map<Word64, string>, t: PplnsShare) {
    s.userId in users && t == s.(btcaddress := Some(users[s.userId]))
  }

  /**
    The shares that come out, in order: those at the positions `at`, which are exactly the positions of known users,
    each with its user's address.
   */
  lemma {:induction false} PopulateKeepsOrder(shares: seq<PplnsShare>, users: map<Word64, string>)
    returns (at: seq<nat>)
    ensures |at| == |Populate(shares, users)|
    ensures forall i, j :: 0 <= i < j < |at| ==> at[i] < at[j]
    ensures forall p: nat :: p in at <==> p < |shares| && shares[p].userId in users
    ensures forall i :: 0 <= i < |at| ==> at[i] < |shares| && ComesOut(shares[at[i]], users, Populate(shares, users)[i])
  {
    if shares == [] {
      at := [];
    } else {
      var n := |shares| - 1;
      at := PopulateKeepsOrder(shares[..n], users);
      assert forall i :: 0 <= i < |at| ==> at[i] in at;
      if shares[n].userId in users {
        at := at + [n];
      }
    }
  }

  /** What the keys hold, in order. */
  function ValuesOf(shares: Shares, keys: seq<Bytes>): (r: seq<PplnsShare>)
    requires forall k :: k in keys ==> k in shares
    ensures |r| == |keys| && forall i :: 0 <= i < |keys| ==> r[i] == shares[keys[i]]
  {
    seq(|keys|, i requires 0 <= i < |keys| => assert keys[i] in keys; shares[keys[i]])
  }

  /** `keys` are, newest first, the first `limit` share keys with times in the query. */
  ghost predicate NewestKeys(shares: Shares, start: Option<Word64>, end: Option<Word64>, now: Word64, limit: nat,
                             keys: seq<Bytes>)
    requires ShareKeys(shares)
  {
    && |keys| <= limit
    && (forall i, j :: 0 <= i < j < |keys| ==> LexLess(keys[j], keys[i]))
    && (forall k :: k in keys ==> k in shares && InQuery(start, end, now, TimeOf(k)))
    && (forall k :: k in shares && InQuery(start, end, now, TimeOf(k)) ==>
          k in keys || (|keys| == limit && forall h :: h in keys ==> LexLess(k, h)))
  }

  lemma ScanIsNewestKeys(shares: Shares, start: Option<Word64>, end: Option<Word64>, now: Word64, limit: nat,
                         scan: seq<Bytes>)
    requires ShareKeys(shares) && IsReverseScan(shares.Keys, ShareLower(start), ShareFrom(end, now), scan)
    ensures NewestKeys(shares, start, end, now, limit, scan[..Min(limit, |scan|)])
  {
    ShareScanByTime(shares, start, end, now, scan);
    var keys := scan[..Min(limit, |scan|)];
    forall k | k in shares && InQuery(start, end, now, TimeOf(k))
      ensures k in keys || (|keys| == limit && forall h :: h in keys ==> LexLess(k, h))
    {
      var p :| 0 <= p < |scan| && scan[p] == k;
      if p < |keys| {
        assert keys[p] == k;
      }
    }
  }

  /** The shares left by a range delete up to just past the cutoff. */
  function PrunedShares(shares: Shares, cutoff: Word64): Shares {
    DeleteRange(shares, MakeKey(0, 0, 0), MakeKey(SaturatingSucc(cutoff), 0, 0))
  }

  /** Pruning removes exactly the shares at or before the cutoff, unless the cutoff is the last representable time. */
  lemma PruneSharesExact(shares: Shares, cutoff: Word64, k: Bytes)
    requires ShareKeys(shares) && k in shares
    ensures k !in PrunedShares(shares, cutoff) <==> TimeOf(k) <= cutoff && !(cutoff == MAX_U64 && TimeOf(k) == MAX_U64)
    ensures k in PrunedShares(shares, cutoff) ==> PrunedShares(shares, cutoff)[k] == shares[k]
  {
    var t, u, q := KeyParts(k);
    MakeKeyOrder(0, 0, 0, t, u, q);
    MakeKeyOrder(t, u, q, SaturatingSucc(cutoff), 0, 0);
  }

  /** What a query answers: the found shares of known users, in order, with their addresses. */
  function Answer(shares: Shares, users: map<Word64, string>, keys: seq<Bytes>): seq<PplnsShare>
    requires forall k :: k in keys ==> k in shares
  {
    Populate(ValuesOf(shares, keys), users)
  }

  /** A share query that starts after the cutoff scans and answers the same before and after pruning. */
  lemma PruneKeepsShareQueries(shares: Shares, cutoff: Word64, start: Word64, end: Option<Word64>, now: Word64,
                               limit: nat, scan: seq<Bytes>, scan': seq<Bytes>, users: map<Word64, string>)
    requires ShareKeys(shares) && cutoff < Micros(start)
    requires IsReverseScan(shares.Keys, ShareLower(Some(start)), ShareFrom(end, now), scan)
    requires IsReverseScan(PrunedShares(shares, cutoff).Keys, ShareLower(Some(start)), ShareFrom(end, now), scan')
    ensures scan == scan'
    ensures var n := Min(limit, |scan|);
            Answer(shares, users, scan[..n]) == Answer(PrunedShares(shares, cutoff), users, scan'[..n])
  {
    var pruned, n := PrunedShares(shares, cutoff), Min(limit, |scan|);
    ShareScanByTime(shares, Some(start), end, now, scan);
    forall k | k in scan ensures k in pruned && pruned[k] == shares[k] {
      PruneSharesExact(shares, cutoff, k);
    }
    ScanUnique(scan, scan');
    forall k | k in scan[..n] ensures k in scan {
    }
    assert ValuesOf(shares, scan[..n]) == ValuesOf(pruned, scan'[..n]);
  }
}
