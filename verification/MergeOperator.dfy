/** `blockhash_list_merge`, on bytes: the operator behind every appended block-hash list. */
module MergeOperator {
  import opened Primitives
  import opened Codec

  /** The existing value as a list; bytes that do not decode count as an empty list. */
  function Existing(v: Option<Bytes>): seq<Bytes32> {
    if v.None? then []
    else
      var r := DeserializeHashes(v.value);
      if r.Some? then r.value else []
  }

  /** Operands in order; one that is not a single hash is skipped. */
  function Append(list: seq<Bytes32>, operands: seq<Bytes>): seq<Bytes32> {
    if operands == [] then list
    else
      var init, h := Append(list, operands[..|operands| - 1]), DeserializeHash(operands[|operands| - 1]);
      if h.Some? then PushIfNew(init, h.value) else init
  }

  lemma {:induction false} AppendFacts(list: seq<Bytes32>, operands: seq<Bytes>)
    ensures |list| <= |Append(list, operands)| <= |list| + |operands|
    ensures list <= Append(list, operands)
    ensures forall h :: h in Append(list, operands) <==> h in list || (h in operands && |h| == 32)
    ensures NoDup(list) ==> NoDup(Append(list, operands))
  {
    if operands == [] {
    } else {
      AppendFacts(list, operands[..|operands| - 1]);
      assert operands == operands[..|operands| - 1] + [operands[|operands| - 1]];
    }
  }

  /** The number of hashes a value can hold is that of a machine word. */
  ghost predicate Fits(list: seq<Bytes32>, operands: seq<Bytes>) {
    |list| + |operands| < WORDS
  }

  /** The merged value. */
  function Merged(v: Option<Bytes>, operands: seq<Bytes>): Bytes {
    EncHashes(Append(Existing(v), operands))
  }

  /** `blockhash_list_merge`. */
  method BlockhashListMerge(existing: Option<Bytes>, operands: seq<Bytes>) returns (result: Bytes)
    ensures result == Merged(existing, operands)
  {
    var blockhashes := Existing(existing);
    for i := 0 to |operands|
      invariant blockhashes == Append(Existing(existing), operands[..i])
    {
      assert operands[..i + 1][..i] == operands[..i];
      var newHash := DeserializeHash(operands[i]);
      if newHash.Some? {
        if newHash.value !in blockhashes {
          blockhashes := blockhashes + [newHash.value];
        }
      }
    }
    assert operands[..|operands|] == operands;
    result := EncHashes(blockhashes);
  }

  lemma MergedDecodes(v: Option<Bytes>, operands: seq<Bytes>)
    requires Fits(Existing(v), operands)
    ensures Existing(Some(Merged(v, operands))) == Append(Existing(v), operands)
  {
    AppendFacts(Existing(v), operands);
    DeserializeEncoded(Append(Existing(v), operands));
  }

  lemma {:induction false} AppendConcat(list: seq<Bytes32>, a: seq<Bytes>, b: seq<Bytes>)
    ensures Append(list, a + b) == Append(Append(list, a), b)
  {
    if b == [] {
      assert a + b == a;
    } else {
      assert (a + b)[..|a + b| - 1] == a + b[..|b| - 1];
      AppendConcat(list, a, b[..|b| - 1]);
    }
  }

  /** Merging two groups of operands one after the other into the stored value is merging them at once. */
  lemma MergeInGroups(v: Option<Bytes>, a: seq<Bytes>, b: seq<Bytes>)
    requires Fits(Existing(v), a + b)
    ensures Fits(Existing(v), a) && Fits(Existing(Some(Merged(v, a))), b)
    ensures Merged(Some(Merged(v, a)), b) == Merged(v, a + b)
  {
    AppendFacts(Existing(v), a);
    MergedDecodes(v, a);
    AppendConcat(Existing(v), a, b);
  }

  /** A merged value is never itself a valid operand: no list encoding is 32 bytes long. */
  lemma MergedIsNoOperand(v: Option<Bytes>, operands: seq<Bytes>)
    ensures DeserializeHash(Merged(v, operands)) == None
  {
    var list := Append(Existing(v), operands);
    HashesLength(list);
    CountLength(|list|);
  }

  /**
    The operator is registered as associative, which allows operands to be combined before they meet the stored
    value. Doing so gives the same result exactly when the stored list already held all of them: combined
    operands are lost.
   */
  lemma CombinedOperandsLost(v: Option<Bytes>, operands: seq<Bytes>)
    requires Fits(Existing(v), operands) && Fits(Existing(v), [Merged(None, operands)])
    ensures Merged(v, [Merged(None, operands)]) == Merged(v, operands)
       <==> forall h :: h in operands && |h| == 32 ==> h in Existing(v)
  {
    var list, combined := Existing(v), Merged(None, operands);
    MergedIsNoOperand(None, operands);
    var one: seq<Bytes> := [combined];
    assert one[..0] == [];
    assert Append(list, one) == list;
    AppendFacts(list, operands);
    MergedDecodes(v, operands);
    MergedDecodes(v, [combined]);
    if forall h :: h in operands && |h| == 32 ==> h in list {
      NothingNew(list, operands);
    } else {
      var h :| h in operands && |h| == 32 && h !in list;
      assert h in Append(list, operands);
    }
  }

  /** With nothing stored, one operand combined first is lost. */
  lemma LoneOperandLost(h: Bytes32)
    ensures Existing(Some(Merged(None, [h]))) == [h] && Existing(Some(Merged(None, [Merged(None, [h])]))) == []
  {
    var one: seq<Bytes> := [h];
    assert one[..0] == [];
    assert Append([], one) == [h];
    MergedDecodes(None, one);
    var combined: seq<Bytes> := [Merged(None, one)];
    MergedIsNoOperand(None, one);
    assert combined[..0] == [];
    assert Append([], combined) == [];
    MergedDecodes(None, combined);
  }

  lemma {:induction false} NothingNew(list: seq<Bytes32>, operands: seq<Bytes>)
    requires forall h :: h in operands && |h| == 32 ==> h in list
    ensures Append(list, operands) == list
  {
    if operands == [] {
    } else {
      var init, last := operands[..|operands| - 1], operands[|operands| - 1];
      assert operands == init + [last];
      NothingNew(list, init);
    }
  }
}
