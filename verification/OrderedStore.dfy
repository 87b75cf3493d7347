/** Keys in byte order: big-endian numbers, range scans from the back, and range deletes. */
module OrderedStore {
  import opened Primitives
  import opened Codec

  /** Byte-lexicographic order, the order of keys in a column family. */
  predicate LexLeq(a: Bytes, b: Bytes) {
    if a == [] then true
    else if b == [] then false
    else a[0] < b[0] || (a[0] == b[0] && LexLeq(a[1..], b[1..]))
  }

  predicate LexLess(a: Bytes, b: Bytes) {
    a != b && LexLeq(a, b)
  }

  lemma {:induction false} LexTotal(a: Bytes, b: Bytes)
    ensures LexLeq(a, b) || LexLeq(b, a)
    ensures LexLeq(a, b) && LexLeq(b, a) ==> a == b
    ensures LexLeq(a, a)
  {
    if a != [] && b != [] {
      LexTotal(a[1..], b[1..]);
      assert a == [a[0]] + a[1..] && b == [b[0]] + b[1..];
      LexReflexive(a[1..]);
    } else {
      LexReflexive(a);
    }
  }

  lemma {:induction false} LexReflexive(a: Bytes)
    ensures LexLeq(a, a)
  {
    if a == [] {
    } else {
      LexReflexive(a[1..]);
    }
  }

  /** Keys made of equally long first parts compare by the first part, then by the rest. */
  lemma {:induction false} LexConcat(a: Bytes, b: Bytes, c: Bytes, d: Bytes)
    requires |a| == |c|
    ensures LexLeq(a + b, c + d) <==> if a == c then LexLeq(b, d) else LexLeq(a, c)
  {
    if a == [] {
      assert a + b == b && c + d == d;
    } else {
      assert (a + b)[0] == a[0] && (c + d)[0] == c[0];
      assert (a + b)[1..] == a[1..] + b && (c + d)[1..] == c[1..] + d;
      LexConcat(a[1..], b, c[1..], d);
      assert a == [a[0]] + a[1..] && c == [c[0]] + c[1..];
    }
  }

  // ----- big-endian numbers -----

  function Pow256(k: nat): nat {
    if k == 0 then 1 else 256 * Pow256(k - 1)
  }

  /** `to_be_bytes` at a width of `k` bytes. */
  function ToBE(n: nat, k: nat): (r: Bytes)
    ensures |r| == k
  {
    if k == 0 then [] else ToBE(n / 256, k - 1) + [n % 256]
  }

  /** `from_be_bytes`. */
  function FromBE(b: Bytes): nat {
    if b == [] then 0 else 256 * FromBE(b[..|b| - 1]) + b[|b| - 1]
  }

  lemma {:induction false} FromToBE(n: nat, k: nat)
    requires n < Pow256(k)
    ensures FromBE(ToBE(n, k)) == n
  {
    if k == 0 {
    } else {
      FromToBE(n / 256, k - 1);
      var b := ToBE(n, k);
      assert b[..|b| - 1] == ToBE(n / 256, k - 1);
    }
  }

  lemma {:induction false} ToFromBE(b: Bytes)
    ensures FromBE(b) < Pow256(|b|)
    ensures ToBE(FromBE(b), |b|) == b
  {
    if b == [] {
    } else {
      ToFromBE(b[..|b| - 1]);
      assert FromBE(b) / 256 == FromBE(b[..|b| - 1]);
      assert b == b[..|b| - 1] + [b[|b| - 1]];
    }
  }

  /** Byte order on strings of one length is the order of the numbers they spell. */
  lemma {:induction false} ByteOrderIsNumeric(a: Bytes, b: Bytes)
    requires |a| == |b|
    ensures LexLeq(a, b) <==> FromBE(a) <= FromBE(b)
    ensures a == b <==> FromBE(a) == FromBE(b)
  {
    if a == [] {
    } else {
      var ia, la, ib, lb := a[..|a| - 1], a[|a| - 1], b[..|b| - 1], b[|b| - 1];
      ByteOrderIsNumeric(ia, ib);
      assert a == ia + [la] && b == ib + [lb];
      LexConcat(ia, [la], ib, [lb]);
      assert LexLeq([la], [lb]) <==> la <= lb by {
        assert [la][1..] == [] && [lb][1..] == [];
      }
    }
  }

  lemma U64IsPow()
    ensures Pow256(8) == WORDS
  {
    assert Pow256(4) == 0x1_0000_0000 by {
      assert Pow256(2) == 0x1_0000;
    }
    assert Pow256(6) == 0x1_0000_0000_0000;
  }

  /** The eight-byte key of a 64-bit number. */
  function Key8(n: Word64): (r: Bytes)
    ensures |r| == 8
  {
    ToBE(n, 8)
  }

  /** Eight-byte keys are ordered, and told apart, as the numbers are. */
  lemma Key8Order(a: Word64, b: Word64)
    ensures LexLeq(Key8(a), Key8(b)) <==> a <= b
    ensures Key8(a) == Key8(b) <==> a == b
    ensures FromBE(Key8(a)) == a
  {
    U64IsPow();
    FromToBE(a, 8);
    FromToBE(b, 8);
    ByteOrderIsNumeric(Key8(a), Key8(b));
  }

  lemma Key8Of(b: Bytes)
    requires |b| == 8
    ensures FromBE(b) < WORDS && Key8(FromBE(b)) == b
  {
    U64IsPow();
    ToFromBE(b);
  }

  // ----- scans -----

  /** `key` lies at or above the optional lower bound and at or below `from`. */
  predicate InScan(lower: Option<Bytes>, from: Bytes, key: Bytes) {
    (lower.Some? ==> LexLeq(lower.value, key)) && LexLeq(key, from)
  }

  /** What a reverse iterator from `from` down to `lower` yields: the keys of the range, each once, greatest first. */
  ghost predicate IsReverseScan(keys: set<Bytes>, lower: Option<Bytes>, from: Bytes, scan: seq<Bytes>) {
    && (forall k :: k in scan <==> k in keys && InScan(lower, from, k))
    && (forall i, j :: 0 <= i < j < |scan| ==> LexLess(scan[j], scan[i]))
  }

  /** The order and the range determine the scan. */
  lemma {:induction false} ScanUnique(s: seq<Bytes>, t: seq<Bytes>)
    requires forall k :: k in s <==> k in t
    requires forall i, j :: 0 <= i < j < |s| ==> LexLess(s[j], s[i])
    requires forall i, j :: 0 <= i < j < |t| ==> LexLess(t[j], t[i])
    ensures s == t
    decreases |s|
  {
    if s == [] {
      if t != [] {
        HasMember(t);
      }
    } else {
      assert s[0] in t;
      SameHead(s, t);
      SameTails(s, t);
      ScanUnique(s[1..], t[1..]);
      assert s == [s[0]] + s[1..] && t == [t[0]] + t[1..];
    }
  }

  lemma SameHead(s: seq<Bytes>, t: seq<Bytes>)
    requires s != [] && t != [] && s[0] in t && t[0] in s
    requires forall i, j :: 0 <= i < j < |s| ==> LexLess(s[j], s[i])
    requires forall i, j :: 0 <= i < j < |t| ==> LexLess(t[j], t[i])
    ensures s[0] == t[0]
  {
    HeadIsTop(s, t[0]);
    HeadIsTop(t, s[0]);
    LexTotal(s[0], t[0]);
  }

  lemma HeadIsTop(s: seq<Bytes>, k: Bytes)
    requires k in s && forall i, j :: 0 <= i < j < |s| ==> LexLess(s[j], s[i])
    ensures k == s[0] || LexLess(k, s[0])
  {
    var i :| 0 <= i < |s| && s[i] == k;
    if i > 0 {
      assert LexLess(s[i], s[0]);
    }
  }

  lemma HasMember(s: seq<Bytes>)
    requires s != []
    ensures exists k :: k in s
  {
    assert s[0] in s;
  }

  lemma SameTails(s: seq<Bytes>, t: seq<Bytes>)
    requires s != [] && t != [] && s[0] == t[0] && forall k :: k in s <==> k in t
    requires forall i, j :: 0 <= i < j < |s| ==> LexLess(s[j], s[i])
    requires forall i, j :: 0 <= i < j < |t| ==> LexLess(t[j], t[i])
    ensures forall k :: k in s[1..] <==> k in t[1..]
  {
    forall k ensures k in s[1..] ==> k in t[1..] {
      if k in s[1..] {
        var i :| 0 <= i < |s[1..]| && s[1..][i] == k;
        assert LexLess(s[i + 1], s[0]);
        assert k in t;
      }
    }
    forall k ensures k in t[1..] ==> k in s[1..] {
      if k in t[1..] {
        var i :| 0 <= i < |t[1..]| && t[1..][i] == k;
        assert LexLess(t[i + 1], t[0]);
        assert k in s;
      }
    }
  }

  lemma {:induction false} LexTrans(a: Bytes, b: Bytes, c: Bytes)
    requires LexLeq(a, b) && LexLeq(b, c)
    ensures LexLeq(a, c)
  {
    if a == [] {
    } else if a[0] == b[0] == c[0] {
      LexTrans(a[1..], b[1..], c[1..]);
    }
  }

  /** `k` put in its place in a descending list without it. */
  lemma {:induction false} Inserted(s: seq<Bytes>, k: Bytes) returns (r: seq<Bytes>)
    requires k !in s && forall i, j :: 0 <= i < j < |s| ==> LexLess(s[j], s[i])
    ensures forall x :: x in r <==> x in s || x == k
    ensures forall i, j :: 0 <= i < j < |r| ==> LexLess(r[j], r[i])
  {
    if s == [] {
      r := [k];
    } else {
      LexTotal(s[0], k);
      if LexLeq(s[0], k) {
        forall j | 0 <= j < |s| ensures LexLess(s[j], k) {
          if j > 0 {
            assert LexLess(s[j], s[0]);
            LexTrans(s[j], s[0], k);
          }
          assert s[j] in s;
        }
        r := [k] + s;
      } else {
        var rest := Inserted(s[1..], k);
        forall j | 0 <= j < |rest| ensures LexLess(rest[j], s[0]) {
          assert rest[j] in rest;
          if rest[j] != k {
            var i :| 0 <= i < |s[1..]| && s[1..][i] == rest[j];
            assert LexLess(s[i + 1], s[0]);
          }
        }
        r := [s[0]] + rest;
      }
    }
  }

  /** Every key set has a scan over every range; `ScanUnique` makes it the only one. */
  lemma {:induction false} ScanExists(keys: set<Bytes>, lower: Option<Bytes>, from: Bytes) returns (scan: seq<Bytes>)
    ensures IsReverseScan(keys, lower, from, scan)
  {
    if keys == {} {
      scan := [];
    } else {
      var k :| k in keys;
      scan := ScanExists(keys - {k}, lower, from);
      if InScan(lower, from, k) {
        assert k !in scan;
        scan := Inserted(scan, k);
      }
    }
  }

  /** `delete_range_cf` removes the keys from `lo` up to, but not including, `hi`. */
  function DeleteRange<V>(cf: map<Bytes, V>, lo: Bytes, hi: Bytes): map<Bytes, V> {
    map k | k in cf && !(LexLeq(lo, k) && LexLess(k, hi)) :: cf[k]
  }
}
