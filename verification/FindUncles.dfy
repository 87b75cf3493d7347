/** `Store::find_uncles`: unconfirmed, unused children of the confirmed blocks just below the top, highest first. */
module FindUncles {
  import opened Primitives
  import opened Types
  import opened Database
  import opened Organise
  import opened IndexTheorems

  const MAX_UNCLES_DEPTH: nat := 3

  /** A block that may be used as an uncle, with its recorded height. */
  datatype Uncle = Uncle(hash: BlockHash, height: nat)

  /** The confirmed blocks at heights `lo` up to `hi`, lowest first. */
  function ConfirmedBetween(db: Db, lo: nat, hi: nat): seq<BlockHash>
    requires lo <= hi
  {
    if lo == hi then []
    else
      var b := GetConfirmedAtHeight(db, hi - 1);
      ConfirmedBetween(db, lo, hi - 1) + (if b.Some? then [b.value] else [])
  }

  function ChildrenOfAll(db: Db, ancestors: seq<BlockHash>): seq<BlockHash> {
    if ancestors == [] then []
    else
      var children := GetChildren(db, ancestors[|ancestors| - 1]);
      ChildrenOfAll(db, ancestors[..|ancestors| - 1]) + (if children.Some? then children.value else [])
  }

  /** Unconfirmed, not used as an uncle, and recorded with a height. */
  predicate IsUnused(db: Db, b: BlockHash) {
    !IsConfirmed(db, b) && !IsAlreadyUncle(db, b) && MetadataHeight(db, b).Some?
  }

  function KeepUnused(db: Db, children: seq<BlockHash>): seq<Uncle> {
    if children == [] then []
    else
      var b := children[|children| - 1];
      KeepUnused(db, children[..|children| - 1])
          + (if IsUnused(db, b) then [Uncle(b, MetadataHeight(db, b).value)] else [])
  }

  /** Every eligible occurrence of a child below the top, in the order the pipeline meets them. */
  function Eligible(db: Db, top: nat): seq<Uncle> {
    KeepUnused(db, ChildrenOfAll(db, ConfirmedBetween(db, SaturatingSub(top, MAX_UNCLES_DEPTH), top)))
  }

  /** Insert behind every entry that is at least as high: one step of a stable descending sort. */
  function Insert(s: seq<Uncle>, u: Uncle): seq<Uncle> {
    if s == [] || s[|s| - 1].height >= u.height then s + [u]
    else Insert(s[..|s| - 1], u) + [s[|s| - 1]]
  }

  /** `sort_by` on descending height. */
  function SortByHeight(s: seq<Uncle>): seq<Uncle> {
    if s == [] then [] else Insert(SortByHeight(s[..|s| - 1]), s[|s| - 1])
  }

  function HashesOf(us: seq<Uncle>): seq<BlockHash> {
    seq(|us|, i requires 0 <= i < |us| => us[i].hash)
  }

  /** `find_uncles`. */
  function FindUncles(db: Db): Result<seq<BlockHash>> {
    var top := GetTopConfirmedHeight(db);
    if top.None? then Err
    else
      var sorted := SortByHeight(Eligible(db, top.value));
      Ok(HashesOf(sorted[..Min(MAX_UNCLES, |sorted|)]))
  }

  // ----- what is eligible -----

  lemma {:induction false} ConfirmedBetweenMembers(db: Db, lo: nat, hi: nat, b: BlockHash)
    requires lo <= hi
    ensures b in ConfirmedBetween(db, lo, hi) <==> exists h :: lo <= h < hi && GetConfirmedAtHeight(db, h) == Some(b)
  {
    if lo < hi {
      ConfirmedBetweenMembers(db, lo, hi - 1, b);
    }
  }

  lemma {:induction false} ChildrenOfAllMembers(db: Db, ancestors: seq<BlockHash>, b: BlockHash)
    ensures b in ChildrenOfAll(db, ancestors)
       <==> exists a :: a in ancestors && GetChildren(db, a).Some? && b in GetChildren(db, a).value
  {
    if ancestors == [] {
    } else {
      ChildrenOfAllMembers(db, ancestors[..|ancestors| - 1], b);
      assert ancestors == ancestors[..|ancestors| - 1] + [ancestors[|ancestors| - 1]];
    }
  }

  lemma {:induction false} KeepUnusedMembers(db: Db, children: seq<BlockHash>, u: Uncle)
    ensures u in KeepUnused(db, children) <==>
              u.hash in children && IsUnused(db, u.hash) && MetadataHeight(db, u.hash) == Some(u.height)
  {
    if children == [] {
    } else {
      KeepUnusedMembers(db, children[..|children| - 1], u);
      assert children == children[..|children| - 1] + [children[|children| - 1]];
    }
  }

  /** `b` is an index child of a block confirmed at one of the three heights below the top. */
  ghost predicate ChildBelowTop(db: Db, top: nat, b: BlockHash) {
    exists h: nat, a :: top <= h + 3 && h < top && GetConfirmedAtHeight(db, h) == Some(a)
                        && GetChildren(db, a).Some? && b in GetChildren(db, a).value
  }

  lemma EligibleIff(db: Db, top: nat, u: Uncle)
    ensures u in Eligible(db, top)
       <==> ChildBelowTop(db, top, u.hash) && !IsConfirmed(db, u.hash) && !IsAlreadyUncle(db, u.hash)
            && MetadataHeight(db, u.hash) == Some(u.height)
  {
    var lo := SaturatingSub(top, MAX_UNCLES_DEPTH);
    var ancestors := ConfirmedBetween(db, lo, top);
    KeepUnusedMembers(db, ChildrenOfAll(db, ancestors), u);
    ChildrenOfAllMembers(db, ancestors, u.hash);
    forall a ensures a in ancestors <==> exists h :: lo <= h < top && GetConfirmedAtHeight(db, h) == Some(a) {
      ConfirmedBetweenMembers(db, lo, top, a);
    }
  }

  /** How often `b` is listed as a child of the blocks confirmed at heights `lo` up to `hi`. */
  function Listings(db: Db, lo: nat, hi: nat, b: BlockHash): nat
    requires lo <= hi
  {
    if lo == hi then 0
    else
      var a := GetConfirmedAtHeight(db, hi - 1);
      Listings(db, lo, hi - 1, b)
      + (if a.Some? && GetChildren(db, a.value).Some? then multiset(GetChildren(db, a.value).value)[b] else 0)
  }

  lemma ChildrenOfAllPush(db: Db, ancestors: seq<BlockHash>, a: BlockHash)
    ensures ChildrenOfAll(db, ancestors + [a])
         == ChildrenOfAll(db, ancestors) + (if GetChildren(db, a).Some? then GetChildren(db, a).value else [])
  {
    assert (ancestors + [a])[..|ancestors + [a]| - 1] == ancestors;
  }

  lemma {:induction false} ListingsAre(db: Db, lo: nat, hi: nat, b: BlockHash)
    requires lo <= hi
    ensures multiset(ChildrenOfAll(db, ConfirmedBetween(db, lo, hi)))[b] == Listings(db, lo, hi, b)
  {
    if lo == hi {
    } else {
      var before, a := ConfirmedBetween(db, lo, hi - 1), GetConfirmedAtHeight(db, hi - 1);
      ListingsAre(db, lo, hi - 1, b);
      if a.Some? {
        ChildrenOfAllPush(db, before, a.value);
      } else {
        assert before + [] == before;
      }
    }
  }

  lemma {:induction false} KeepUnusedCount(db: Db, children: seq<BlockHash>, u: Uncle)
    ensures multiset(KeepUnused(db, children))[u]
         == if IsUnused(db, u.hash) && MetadataHeight(db, u.hash) == Some(u.height) then multiset(children)[u.hash]
            else 0
  {
    if children == [] {
    } else {
      var init, last := children[..|children| - 1], children[|children| - 1];
      KeepUnusedCount(db, init, u);
      assert children == init + [last];
      CountPush(init, last, u.hash);
      if IsUnused(db, last) {
        CountPush(KeepUnused(db, init), Uncle(last, MetadataHeight(db, last).value), u);
      }
    }
  }

  lemma CountPush<T>(s: seq<T>, x: T, y: T)
    ensures multiset(s + [x])[y] == multiset(s)[y] + (if x == y then 1 else 0)
  {
  }

  /** An eligible block is met as often as it is listed below the top; no other is met. */
  lemma EligibleCount(db: Db, top: nat, u: Uncle)
    ensures multiset(Eligible(db, top))[u]
         == if !IsConfirmed(db, u.hash) && !IsAlreadyUncle(db, u.hash) && MetadataHeight(db, u.hash) == Some(u.height)
            then Listings(db, if top < 3 then 0 else top - 3, top, u.hash) else 0
  {
    var lo := SaturatingSub(top, MAX_UNCLES_DEPTH);
    KeepUnusedCount(db, ChildrenOfAll(db, ConfirmedBetween(db, lo, top)), u);
    ListingsAre(db, lo, top, u.hash);
  }

  // ----- the order in which they are met -----

  /** Place `index` of the children list of the block confirmed at `height`. */
  datatype Place = Place(height: nat, index: nat)

  predicate Before(p: Place, q: Place) {
    p.height < q.height || (p.height == q.height && p.index < q.index)
  }

  predicate ListedAt(db: Db, p: Place, b: BlockHash) {
    var a := GetConfirmedAtHeight(db, p.height);
    && a.Some? && GetChildren(db, a.value).Some?
    && p.index < |GetChildren(db, a.value).value| && GetChildren(db, a.value).value[p.index] == b
  }

  /** The hashes stand at the places `at`, at heights below `hi`, each place behind the one before. */
  ghost predicate MetAt(db: Db, hi: nat, hashes: seq<BlockHash>, at: seq<Place>) {
    && |at| == |hashes|
    && (forall k :: 0 <= k < |at| ==> at[k].height < hi && ListedAt(db, at[k], hashes[k]))
    && (forall j, k :: 0 <= j < k < |at| ==> Before(at[j], at[k]))
  }

  function PlacesOf(height: nat, n: nat): (r: seq<Place>)
    ensures |r| == n && forall i :: 0 <= i < n ==> r[i] == Place(height, i)
  {
    seq(n, i requires 0 <= i < n => Place(height, i))
  }

  lemma NextPlaces(db: Db, hi: nat, hashes: seq<BlockHash>, at: seq<Place>, children: seq<BlockHash>)
    requires MetAt(db, hi, hashes, at)
    requires forall i :: 0 <= i < |children| ==> ListedAt(db, Place(hi, i), children[i])
    ensures MetAt(db, hi + 1, hashes + children, at + PlacesOf(hi, |children|))
  {
  }

  lemma {:induction false} ChildrenInOrder(db: Db, lo: nat, hi: nat) returns (at: seq<Place>)
    requires lo <= hi
    ensures MetAt(db, hi, ChildrenOfAll(db, ConfirmedBetween(db, lo, hi)), at)
  {
    if lo == hi {
      at := [];
    } else {
      var before, a := ConfirmedBetween(db, lo, hi - 1), GetConfirmedAtHeight(db, hi - 1);
      at := ChildrenInOrder(db, lo, hi - 1);
      if a.Some? {
        ChildrenOfAllPush(db, before, a.value);
        var children := if GetChildren(db, a.value).Some? then GetChildren(db, a.value).value else [];
        NextPlaces(db, hi - 1, ChildrenOfAll(db, before), at, children);
        at := at + PlacesOf(hi - 1, |children|);
      } else {
        assert before + [] == before;
      }
    }
  }

  lemma {:induction false} KeptInOrder(db: Db, hi: nat, children: seq<BlockHash>, at: seq<Place>)
    returns (kept: seq<Place>)
    requires MetAt(db, hi, children, at)
    ensures MetAt(db, hi, HashesOf(KeepUnused(db, children)), kept)
    ensures forall p :: p in kept ==> p in at
  {
    if children == [] {
      kept := [];
    } else {
      var n := |children| - 1;
      kept := KeptInOrder(db, hi, children[..n], at[..n]);
      assert forall k :: 0 <= k < |kept| ==> kept[k] in kept;
      if IsUnused(db, children[n]) {
        kept := kept + [at[n]];
      }
    }
  }

  /**
    Eligible blocks are met by the height of the confirmed block that lists them, lowest first, and within its list
    in the order of the list.
   */
  lemma EligibleInOrder(db: Db, top: nat) returns (at: seq<Place>)
    ensures MetAt(db, top, HashesOf(Eligible(db, top)), at)
  {
    var lo := SaturatingSub(top, MAX_UNCLES_DEPTH);
    var places := ChildrenInOrder(db, lo, top);
    at := KeptInOrder(db, top, ChildrenOfAll(db, ConfirmedBetween(db, lo, top)), places);
  }

  // ----- sorting -----

  ghost predicate Descending(s: seq<Uncle>) {
    forall i, j :: 0 <= i < j < |s| ==> s[i].height >= s[j].height
  }

  /** The entries of one height, in order. */
  function AtHeight(s: seq<Uncle>, h: nat): seq<Uncle> {
    if s == [] then [] else AtHeight(s[..|s| - 1], h) + (if s[|s| - 1].height == h then [s[|s| - 1]] else [])
  }

  lemma AtHeightPush(s: seq<Uncle>, u: Uncle, h: nat)
    ensures AtHeight(s + [u], h) == AtHeight(s, h) + (if u.height == h then [u] else [])
  {
    assert (s + [u])[..|s + [u]| - 1] == s;
  }

  lemma {:induction false} InsertPermutes(s: seq<Uncle>, u: Uncle)
    ensures multiset(Insert(s, u)) == multiset(s) + multiset{u}
    ensures forall x :: x in Insert(s, u) <==> x in s || x == u
  {
    if s != [] && s[|s| - 1].height < u.height {
      InsertPermutes(s[..|s| - 1], u);
      assert s == s[..|s| - 1] + [s[|s| - 1]];
    }
  }

  lemma {:induction false} InsertDescends(s: seq<Uncle>, u: Uncle)
    requires Descending(s)
    ensures Descending(Insert(s, u))
  {
    if s != [] && s[|s| - 1].height < u.height {
      var init, last := s[..|s| - 1], s[|s| - 1];
      InsertDescends(init, u);
      InsertPermutes(init, u);
      var t := Insert(init, u);
      forall i | 0 <= i < |t| ensures t[i].height >= last.height {
        assert t[i] in t;
      }
    }
  }

  lemma {:induction false} InsertStable(s: seq<Uncle>, u: Uncle, h: nat)
    ensures AtHeight(Insert(s, u), h) == AtHeight(s, h) + (if u.height == h then [u] else [])
  {
    if s == [] || s[|s| - 1].height >= u.height {
      AtHeightPush(s, u, h);
    } else {
      var init, last := s[..|s| - 1], s[|s| - 1];
      assert s == init + [last];
      InsertStable(init, u, h);
      AtHeightPush(Insert(init, u), last, h);
      AtHeightPush(init, last, h);
    }
  }

  /** The sort is descending, and keeps every occurrence. */
  lemma {:induction false} SortDescends(s: seq<Uncle>)
    ensures Descending(SortByHeight(s))
  {
    if s == [] {
    } else {
      SortDescends(s[..|s| - 1]);
      InsertDescends(SortByHeight(s[..|s| - 1]), s[|s| - 1]);
    }
  }

  lemma {:induction false} SortPermutes(s: seq<Uncle>)
    ensures multiset(SortByHeight(s)) == multiset(s)
  {
    if s == [] {
    } else {
      var init, last := s[..|s| - 1], s[|s| - 1];
      SortPermutes(init);
      InsertPermutes(SortByHeight(init), last);
      MultisetPush(init, last, s);
    }
  }

  lemma MultisetPush(init: seq<Uncle>, last: Uncle, s: seq<Uncle>)
    requires s != [] && init == s[..|s| - 1] && last == s[|s| - 1]
    ensures multiset(s) == multiset(init) + multiset{last}
  {
    assert s == init + [last];
  }

  /** The sort keeps the order of entries of equal height. */
  lemma {:induction false} SortStable(s: seq<Uncle>, h: nat)
    ensures AtHeight(SortByHeight(s), h) == AtHeight(s, h)
  {
    if s == [] {
    } else {
      SortStable(s[..|s| - 1], h);
      InsertStable(SortByHeight(s[..|s| - 1]), s[|s| - 1], h);
    }
  }

  lemma PickHighest(es: seq<Uncle>) returns (picked: seq<Uncle>, left: seq<Uncle>)
    ensures SortByHeight(es) == picked + left && |picked| == Min(MAX_UNCLES, |SortByHeight(es)|)
    ensures multiset(picked + left) == multiset(es) && |picked| == Min(3, |es|)
    ensures Descending(picked) && forall h: nat :: AtHeight(picked + left, h) == AtHeight(es, h)
    ensures forall p, l :: p in picked && l in left ==> l.height <= p.height
  {
    var sorted := SortByHeight(es);
    SortDescends(es);
    SortPermutes(es);
    SameSize(sorted, es);
    var n := Min(MAX_UNCLES, |sorted|);
    picked, left := sorted[..n], sorted[n..];
    TakeHighest(sorted, n);
    assert sorted == picked + left;
    forall h: nat ensures AtHeight(picked + left, h) == AtHeight(es, h) {
      SortStable(es, h);
    }
  }

  lemma SameSize(a: seq<Uncle>, b: seq<Uncle>)
    requires multiset(a) == multiset(b)
    ensures |a| == |b|
  {
    assert |multiset(a)| == |a| && |multiset(b)| == |b|;
  }

  lemma TakeHighest(s: seq<Uncle>, n: nat)
    requires Descending(s) && n <= |s|
    ensures Descending(s[..n]) && forall p, l :: p in s[..n] && l in s[n..] ==> l.height <= p.height
  {
  }

  // ----- the result -----

  /**
    `find_uncles` fails exactly without a confirmed top. Otherwise it returns, highest first, as many of the
    eligible occurrences as fit, equals in the order met, and none that it leaves out is higher than one it returns.
   */
  lemma FindUnclesSpec(db: Db) returns (picked: seq<Uncle>, left: seq<Uncle>)
    ensures FindUncles(db).Ok? <==> GetTopConfirmedHeight(db).Some?
    ensures var top := GetTopConfirmedHeight(db);
            top.Some? ==>
              && FindUncles(db) == Ok(HashesOf(picked))
              && multiset(picked + left) == multiset(Eligible(db, top.value))
              && |picked| == Min(3, |Eligible(db, top.value)|)
              && Descending(picked)
              && (forall h: nat :: AtHeight(picked + left, h) == AtHeight(Eligible(db, top.value), h))
              && forall p, l :: p in picked && l in left ==> l.height <= p.height
  {
    picked, left := [], [];
    var top := GetTopConfirmedHeight(db);
    if top.Some? {
      picked, left := PickHighest(Eligible(db, top.value));
    }
  }
}
