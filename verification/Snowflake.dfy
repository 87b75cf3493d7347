/** The id generator: a millisecond clock in the high 42 bits, a wrapping counter in the low 22. */
module Snowflake {
  import opened Codec

  const CUSTOM_EPOCH: nat := 1735689600000
  const SEQUENCES: nat := 0x40_0000
  const TIMES: nat := 0x400_0000_0000
  const COUNTER: nat := 0x1_0000_0000

  /** Milliseconds since the custom epoch, in wrapping 64-bit arithmetic. */
  function Timestamp(now: Word64): Word64 {
    (now + WORDS - CUSTOM_EPOCH) % WORDS
  }

  /** The shifted timestamp has 22 zero bits at the bottom, so the `or` with the masked sequence is a sum. */
  function IdOf(now: Word64, counter: Word32): (id: Word64)
    ensures id % SEQUENCES == counter % SEQUENCES
    ensures id / SEQUENCES == Timestamp(now) % TIMES
  {
    ShiftDropsHighBits(Timestamp(now));
    (Timestamp(now) * SEQUENCES) % WORDS + counter % SEQUENCES
  }

  lemma ShiftDropsHighBits(t: nat)
    ensures (t * SEQUENCES) % WORDS == (t % TIMES) * SEQUENCES <= WORDS - SEQUENCES
  {
    var q, m := t / TIMES, t % TIMES;
    assert t * SEQUENCES == q * WORDS + m * SEQUENCES;
  }

  /** An id in its window: the milliseconds since the start of 2025, times 2^22, and the low 22 bits of the counter. */
  lemma IdIs(now: Word64, counter: Word32)
    requires 1735689600000 <= now < 1735689600000 + 0x400_0000_0000
    ensures IdOf(now, counter) == (now - 1735689600000) * 4194304 + counter % 4194304
  {
    InWindow(now);
    ShiftDropsHighBits(Timestamp(now));
  }

  class Generator {
    var counter: Word32

    constructor ()
      ensures counter == 0
    {
      counter := 0;
    }

    /** `get_next_id`: the counter is taken and bumped in one step. */
    method NextId(now: Word64) returns (id: Word64)
      modifies this
      ensures counter == if old(counter) == 0xFFFF_FFFF then 0 else old(counter) + 1
      ensures id == IdOf(now, old(counter))
    {
      var taken := counter;
      counter := (counter + 1) % COUNTER;
      id := IdOf(now, taken);
    }
  }

  /** The id the `k`th call gets, when `calls[k]` is the clock reading of the call that took counter value `k`. */
  function IdAt(calls: seq<Word64>, k: nat): Word64
    requires k < |calls|
  {
    IdOf(calls[k], k % COUNTER)
  }

  /** A generator that makes a whole list of calls hands out exactly those ids. */
  method TakeIds(calls: seq<Word64>) returns (ids: seq<Word64>)
    ensures |ids| == |calls| && forall k :: 0 <= k < |ids| ==> ids[k] == IdAt(calls, k)
  {
    var g := new Generator();
    ids := [];
    while |ids| < |calls|
      invariant |ids| <= |calls| && g.counter == |ids| % COUNTER
      invariant forall k :: 0 <= k < |ids| ==> ids[k] == IdAt(calls, k)
      invariant fresh(g)
    {
      NextCounter(|ids|);
      var id := g.NextId(calls[|ids|]);
      ids := ids + [id];
    }
  }

  lemma NextCounter(k: nat)
    ensures (k % COUNTER + 1) % COUNTER == (k + 1) % COUNTER
  {
  }

  /** Two calls get the same id exactly when their clocks agree modulo 2^42 and their places modulo 2^22. */
  lemma SameIdIff(calls: seq<Word64>, i: nat, j: nat)
    requires i < |calls| && j < |calls|
    ensures IdAt(calls, i) == IdAt(calls, j) <==> calls[i] % TIMES == calls[j] % TIMES && i % SEQUENCES == j % SEQUENCES
  {
    MaskedCounter(i);
    MaskedCounter(j);
    SameTimeIff(calls[i], calls[j]);
    SameDigits(IdAt(calls, i), IdAt(calls, j));
  }

  lemma SameDigits(a: nat, b: nat)
    ensures a == b <==> a / SEQUENCES == b / SEQUENCES && a % SEQUENCES == b % SEQUENCES
  {
  }

  /** The wrap of the 32-bit counter is invisible in the low 22 bits. */
  lemma MaskedCounter(k: nat)
    ensures k % COUNTER % SEQUENCES == k % SEQUENCES
  {
    assert COUNTER == 1024 * SEQUENCES;
    var q, m := k / COUNTER, k % COUNTER;
    assert k == (q * 1024) * SEQUENCES + m;
  }

  /** Where a clock reading lands in the 42 bits. */
  lemma MaskedTime(now: Word64)
    ensures Timestamp(now) % TIMES == if now % TIMES < CUSTOM_EPOCH then now % TIMES + TIMES - CUSTOM_EPOCH
            else now % TIMES - CUSTOM_EPOCH
  {
    assert WORDS == SEQUENCES * TIMES;
  }

  lemma SameTimeIff(a: Word64, b: Word64)
    ensures Timestamp(a) % TIMES == Timestamp(b) % TIMES <==> a % TIMES == b % TIMES
  {
    MaskedTime(a);
    MaskedTime(b);
  }

  /** No two calls that read the same millisecond are 2^22 or more places apart, and the clock fits its 42 bits. */
  ghost predicate Paced(calls: seq<Word64>) {
    && (forall k :: 0 <= k < |calls| ==> CUSTOM_EPOCH <= calls[k] < CUSTOM_EPOCH + TIMES)
    && (forall i, j :: 0 <= i < j < |calls| && calls[i] == calls[j] ==> j - i < SEQUENCES)
  }

  ghost predicate DistinctIds(calls: seq<Word64>) {
    forall i: nat, j: nat :: i < j < |calls| ==> IdAt(calls, i) != IdAt(calls, j)
  }

  lemma PacedAreDistinct(calls: seq<Word64>)
    requires Paced(calls)
    ensures DistinctIds(calls)
  {
    forall i: nat, j: nat | i < j < |calls| ensures IdAt(calls, i) != IdAt(calls, j) {
      SameIdIff(calls, i, j);
      if calls[i] == calls[j] {
        CloseDiffer(i, j);
      } else {
        assert CUSTOM_EPOCH <= calls[i] < CUSTOM_EPOCH + TIMES && CUSTOM_EPOCH <= calls[j] < CUSTOM_EPOCH + TIMES;
        WindowDiffer(calls[i], calls[j]);
      }
    }
  }

  lemma CloseDiffer(i: nat, j: nat)
    requires i < j < i + SEQUENCES
    ensures i % SEQUENCES != j % SEQUENCES
  {
  }

  lemma WindowDiffer(a: nat, b: nat)
    requires CUSTOM_EPOCH <= a < CUSTOM_EPOCH + TIMES && CUSTOM_EPOCH <= b < CUSTOM_EPOCH + TIMES && a != b
    ensures a % TIMES != b % TIMES
  {
  }

  /** Ids sort by time, then by masked place; so they ascend within a millisecond until the 22 bits wrap. */
  lemma IdOrder(calls: seq<Word64>, i: nat, j: nat)
    requires i < |calls| && j < |calls|
    requires CUSTOM_EPOCH <= calls[i] < CUSTOM_EPOCH + TIMES && CUSTOM_EPOCH <= calls[j] < CUSTOM_EPOCH + TIMES
    ensures IdAt(calls, i) < IdAt(calls, j) <==>
              calls[i] < calls[j] || (calls[i] == calls[j] && i % SEQUENCES < j % SEQUENCES)
  {
    MaskedCounter(i);
    MaskedCounter(j);
    InWindow(calls[i]);
    InWindow(calls[j]);
    DigitOrder(IdAt(calls, i), IdAt(calls, j));
  }

  lemma InWindow(now: Word64)
    requires CUSTOM_EPOCH <= now < CUSTOM_EPOCH + TIMES
    ensures Timestamp(now) % TIMES == now - CUSTOM_EPOCH
  {
  }

  lemma DigitOrder(a: nat, b: nat)
    ensures a < b <==>
            a / SEQUENCES < b / SEQUENCES || (a / SEQUENCES == b / SEQUENCES && a % SEQUENCES < b % SEQUENCES)
  {
  }
}
