/** The store object over jobs and PPLNS shares: its writers, its queries, and what a query finds after every run. */
module TimeRuns {
  import opened Primitives
  import opened Codec
  import opened OrderedStore
  import opened TimeStores

  /** The two column families. */
  datatype Stored = Stored(jobs: Jobs, shares: Shares)

  datatype Event =
    | AddJob(time: Word64, data: string)
    | AddPplnsShare(share: PplnsShare, id: Word64)
    | PruneJobs(now: Word64, ttl: Word64)
    | PruneShares(now: Word64, ttl: Word64)

  function Step(s: Stored, e: Event): Stored {
    match e
    case AddJob(time, data) => s.(jobs := s.jobs[Key8(time) := data])
    case AddPplnsShare(share, id) => s.(shares := s.shares[ShareKey(share, id) := share.(btcaddress := None)])
    case PruneJobs(now, ttl) => s.(jobs := PrunedJobs(s.jobs, Cutoff(now, ttl)))
    case PruneShares(now, ttl) => s.(shares := PrunedShares(s.shares, Cutoff(now, ttl)))
  }

  function After(events: seq<Event>): Stored {
    if events == [] then Stored(map[], map[]) else Step(After(events[..|events| - 1]), events[|events| - 1])
  }

  ghost predicate ValidStored(s: Stored) {
    JobKeys(s.jobs) && ShareKeys(s.shares)
  }

  lemma StepKeepsValid(s: Stored, e: Event)
    requires ValidStored(s)
    ensures ValidStored(Step(s, e))
  {
    if e.AddJob? {
      Key8Order(e.time, e.time);
    }
  }

  lemma {:induction false} RunIsValid(events: seq<Event>)
    ensures ValidStored(After(events))
  {
    if events == [] {
    } else {
      RunIsValid(events[..|events| - 1]);
      StepKeepsValid(After(events[..|events| - 1]), events[|events| - 1]);
    }
  }

  class TimedStore {
    var jobs: Jobs
    var shares: Shares

    ghost function Contents(): Stored
      reads this
    {
      Stored(jobs, shares)
    }

    ghost predicate Valid()
      reads this
    {
      ValidStored(Contents())
    }

    constructor ()
      ensures Valid() && Contents() == After([])
    {
      jobs, shares := map[], map[];
    }

    method AddJob(time: Word64, data: string)
      requires Valid()
      modifies this
      ensures Valid() && Contents() == Step(old(Contents()), Event.AddJob(time, data))
    {
      StepKeepsValid(Contents(), Event.AddJob(time, data));
      jobs := jobs[Key8(time) := data];
    }

    /** `id` is the next id of the generator; the address is not stored. */
    method AddPplnsShare(share: PplnsShare, id: Word64)
      requires Valid()
      modifies this
      ensures Valid() && Contents() == Step(old(Contents()), Event.AddPplnsShare(share, id))
    {
      shares := shares[ShareKey(share, id) := share.(btcaddress := None)];
    }

    method PruneJobs(now: Word64, ttl: Word64)
      requires Valid()
      modifies this
      ensures Valid() && Contents() == Step(old(Contents()), Event.PruneJobs(now, ttl))
      ensures forall t :: Key8(t) in jobs <==> Key8(t) in old(jobs) && !TooOld(now, ttl, t)
    {
      forall t ensures Key8(t) in PrunedJobs(jobs, Cutoff(now, ttl)) <==> Key8(t) in jobs && !TooOld(now, ttl, t) {
        PruneJobsByAge(Contents(), now, ttl, t);
      }
      var cutoff := SaturatingSub(now, ttl);
      jobs := DeleteRange(jobs, Key8(0), Key8(SaturatingSucc(cutoff)));
    }

    method PruneShares(now: Word64, ttl: Word64)
      requires Valid()
      modifies this
      ensures Valid() && Contents() == Step(old(Contents()), Event.PruneShares(now, ttl))
      ensures forall k :: k in shares <==> k in old(shares) && !TooOld(now, ttl, TimeOf(k))
    {
      forall k | k in shares ensures k in PrunedShares(shares, Cutoff(now, ttl)) <==> !TooOld(now, ttl, TimeOf(k)) {
        PruneSharesByAge(Contents(), now, ttl, k);
      }
      var cutoff := SaturatingSub(now, ttl);
      shares := DeleteRange(shares, MakeKey(0, 0, 0), MakeKey(SaturatingSucc(cutoff), 0, 0));
    }

    /** `get_jobs`. `scan` is what the database's reverse iterator yields; `now` is the clock. */
    method GetJobs(start: Option<Word64>, end: Option<Word64>, limit: nat, now: Word64, scan: seq<Bytes>)
      returns (r: Result<seq<Job>>)
      requires IsReverseScan(jobs.Keys, LowerBound(start), Key8(if end.Some? then end.value else now), scan)
      ensures r == JobsFrom(jobs, scan, Min(limit, |scan|))
      ensures Valid() ==> r.Ok? && Newest(jobs, if start.Some? then start.value else 0,
                                          if end.Some? then end.value else now, limit, r.value)
    {
      var hi := if end.Some? then end.value else now;
      assert forall i :: 0 <= i < |scan| ==> scan[i] in scan;
      r := FirstJobs(jobs, scan, Min(limit, |scan|));
      if Valid() {
        ScanIsNewest(jobs, start, hi, limit, scan);
      }
    }

    /**
      `get_pplns_shares_filtered`: of the first `limit` shares in the time range, newest first, those of known users
      in the same order. `users` is the address lookup.
     */
    method GetPplnsSharesFiltered(users: map<Word64, string>, limit: Option<nat>, start: Option<Word64>,
                                  end: Option<Word64>, now: Word64, scan: seq<Bytes>)
      returns (r: seq<PplnsShare>)
      requires IsReverseScan(shares.Keys, ShareLower(start), ShareFrom(end, now), scan)
      ensures var keys := scan[..Min(UseLimit(limit), |scan|)];
              && (forall k :: k in keys ==> k in shares) && r == Answer(shares, users, keys)
              && (Valid() ==> NewestKeys(shares, start, end, now, UseLimit(limit), keys))
    {
      var useLimit := if limit.Some? then limit.value else INITIAL_SHARE_VEC_CAPACITY;
      var n := Min(useLimit, |scan|);
      assert forall i :: 0 <= i < |scan| ==> scan[i] in scan;
      var found := FirstValues(shares, scan, n);
      r := Populate(found, users);
      if Valid() {
        ScanIsNewestKeys(shares, start, end, now, UseLimit(limit), scan);
      }
    }
  }

  /** The loop of `get_jobs` over the scan, up to the limit. */
  method FirstJobs(jobs: Jobs, scan: seq<Bytes>, n: nat) returns (r: Result<seq<Job>>)
    requires n <= |scan| && forall i :: 0 <= i < |scan| ==> scan[i] in jobs
    ensures r == JobsFrom(jobs, scan, n)
  {
    var results: seq<Job> := [];
    var i := 0;
    while i < n
      invariant 0 <= i <= n
      invariant JobsFrom(jobs, scan, i) == Ok(results)
    {
      var key := scan[i];
      if |key| != 8 {
        JobsFromStuck(jobs, scan, i + 1, n);
        return Err;
      }
      Key8Of(key);
      results := results + [Job(FromBE(key), jobs[key])];
      i := i + 1;
    }
    return Ok(results);
  }

  /** The loop of `get_pplns_shares_filtered` over the scan, up to the limit. */
  method FirstValues(shares: Shares, scan: seq<Bytes>, n: nat) returns (found: seq<PplnsShare>)
    requires n <= |scan| && forall i :: 0 <= i < |scan| ==> scan[i] in shares
    ensures found == ValuesOf(shares, scan[..n])
  {
    found := [];
    var i := 0;
    while i < n
      invariant 0 <= i <= n
      invariant found == ValuesOf(shares, scan[..i])
    {
      assert scan[..i + 1] == scan[..i] + [scan[i]];
      found := found + [shares[scan[i]]];
      i := i + 1;
    }
  }

  function UseLimit(limit: Option<nat>): nat {
    if limit.Some? then limit.value else 100_000
  }

  // ----- what pruning takes, by age -----

  /** A job is taken exactly when its time and the age limit do not go beyond the clock. */
  lemma PruneJobsByAge(s: Stored, now: Word64, ttl: Word64, t: Word64)
    ensures var jobs := Step(s, Event.PruneJobs(now, ttl)).jobs;
            && (Key8(t) in jobs <==> Key8(t) in s.jobs && !TooOld(now, ttl, t))
            && (Key8(t) in jobs ==> jobs[Key8(t)] == s.jobs[Key8(t)])
  {
    CutoffIsAge(now, ttl, t);
    if Key8(t) in s.jobs {
      PruneJobsExact(s.jobs, Cutoff(now, ttl), t);
    }
  }

  lemma PruneSharesByAge(s: Stored, now: Word64, ttl: Word64, k: Bytes)
    requires ValidStored(s) && k in s.shares
    ensures var shares := Step(s, Event.PruneShares(now, ttl)).shares;
            && (k in shares <==> !TooOld(now, ttl, TimeOf(k)))
            && (k in shares ==> shares[k] == s.shares[k])
  {
    CutoffIsAge(now, ttl, TimeOf(k));
    PruneSharesExact(s.shares, Cutoff(now, ttl), k);
  }

  // ----- what is stored after every run -----

  /** The job last added at `t`, unless a later prune took it. */
  function JobAt(events: seq<Event>, t: Word64): Option<string> {
    if events == [] then None
    else
      var e := events[|events| - 1];
      if e.AddJob? && e.time == t then Some(e.data)
      else if e.PruneJobs? && TooOld(e.now, e.ttl, t) then None
      else JobAt(events[..|events| - 1], t)
  }

  /** The share last added under `k`, unless a later prune took it. */
  function ShareAt(events: seq<Event>, k: Bytes): Option<PplnsShare>
    requires |k| == 24
  {
    if events == [] then None
    else
      var e := events[|events| - 1];
      if e.AddPplnsShare? && ShareKey(e.share, e.id) == k then Some(e.share.(btcaddress := None))
      else if e.PruneShares? && TooOld(e.now, e.ttl, TimeOf(k)) then None
      else ShareAt(events[..|events| - 1], k)
  }

  /** After every run of adds and prunes a query sees at `t` exactly the job last added there and not pruned since. */
  lemma {:induction false} JobsAfterRun(events: seq<Event>, t: Word64)
    ensures var jobs := After(events).jobs;
            && (Key8(t) in jobs <==> JobAt(events, t).Some?)
            && (Key8(t) in jobs ==> jobs[Key8(t)] == JobAt(events, t).value)
  {
    if events == [] {
    } else {
      var init, e := events[..|events| - 1], events[|events| - 1];
      JobsAfterRun(init, t);
      if e.AddJob? {
        Key8Order(e.time, t);
      } else if e.PruneJobs? && Key8(t) in After(init).jobs {
        PruneJobsByAge(After(init), e.now, e.ttl, t);
      }
    }
  }

  /** After every run the shares stored are exactly those last added under their key and not pruned since. */
  lemma {:induction false} SharesAfterRun(events: seq<Event>, k: Bytes)
    requires |k| == 24
    ensures var shares := After(events).shares;
            && (k in shares <==> ShareAt(events, k).Some?)
            && (k in shares ==> shares[k] == ShareAt(events, k).value)
  {
    if events == [] {
    } else {
      var init, e := events[..|events| - 1], events[|events| - 1];
      SharesAfterRun(init, k);
      RunIsValid(init);
      if e.PruneShares? && k in After(init).shares {
        PruneSharesByAge(After(init), e.now, e.ttl, k);
      }
    }
  }
}
