/** Options, duplicate-free sequences and the counting facts the graph walks rest on. */
module Primitives {

  datatype Option<+T> = None | Some(value: T)

  datatype Result<+T> = Ok(value: T) | Err

  function Min(a: nat, b: nat): nat {
    if a <= b then a else b
  }

  ghost predicate NoDup<T>(s: seq<T>) {
    forall i, j :: 0 <= i < j < |s| ==> s[i] != s[j]
  }

  ghost function Elements<T>(s: seq<T>): set<T> {
    set x | x in s
  }

  lemma NoDupPush<T>(s: seq<T>, x: T)
    requires NoDup(s) && x !in s
    ensures NoDup(s + [x])
  {
  }

  /** A duplicate-free sequence over a finite set is no longer than the set. */
  lemma {:induction false} Pigeonhole<T>(s: seq<T>, bound: set<T>)
    requires NoDup(s)
    requires forall x :: x in s ==> x in bound
    ensures |s| <= |bound|
  {
    if s == [] {
    } else {
      var last := s[|s| - 1];
      Pigeonhole(s[..|s| - 1], bound - {last});
    }
  }

  /** The first-occurrence subsequence: what a visited set leaves of a list of visits. */
  function Dedup<T(==)>(s: seq<T>): seq<T> {
    if s == [] then []
    else
      var init := Dedup(s[..|s| - 1]);
      if s[|s| - 1] in init then init else init + [s[|s| - 1]]
  }

  lemma {:induction false} DedupFacts<T>(s: seq<T>)
    ensures NoDup(Dedup(s))
    ensures forall x :: x in Dedup(s) <==> x in s
    ensures |Dedup(s)| <= |s|
  {
    if s == [] {
    } else {
      DedupFacts(s[..|s| - 1]);
      assert s == s[..|s| - 1] + [s[|s| - 1]];
    }
  }

  lemma DedupPush<T>(s: seq<T>, x: T)
    ensures Dedup(s + [x]) == if x in s then Dedup(s) else Dedup(s) + [x]
  {
    assert (s + [x])[..|s + [x]| - 1] == s;
    DedupFacts(s);
  }

  lemma {:induction false} DedupGrows<T>(s: seq<T>, t: seq<T>) returns (tail: seq<T>)
    ensures Dedup(s + t) == Dedup(s) + tail
  {
    if t == [] {
      assert s + t == s;
      tail := [];
    } else {
      var init, last := t[..|t| - 1], t[|t| - 1];
      var r := DedupGrows(s, init);
      assert s + t == (s + init) + [last];
      DedupPush(s + init, last);
      tail := if last in s + init then r else r + [last];
    }
  }

  function SaturatingSub(a: nat, b: nat): (r: nat)
    ensures r <= a
  {
    if a >= b then a - b else 0
  }

  /** Append unless already present: the effect of one merge operand on a stored list. */
  function PushIfNew<T(==)>(s: seq<T>, x: T): seq<T> {
    if x in s then s else s + [x]
  }
}
