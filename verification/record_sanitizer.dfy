/** `prune_records`: drops the fields of a parsed row whose value is null-like
    and keeps every other field exactly as it was. */
module RecordSanitizer {
  import opened Wrappers
  import opened Values

  /** What `pd.isnull` reports for one element of a list value. */
  predicate IsNullElement(v: Value) {
    v.Null? || v.NaN? || v.NaT?
  }

  /** The four reasons a field is dropped: None, a list holding at least one
      null element, a float NaN, or NaT. */
  predicate IsNullLike(v: Value)
    ensures IsNullLike(v) ==> !v.Bool? && !v.Int? && !v.Num? && !v.Str?
    ensures v.List? && |v.items| == 0 ==> !IsNullLike(v)
    ensures v.List? && (forall i :: 0 <= i < |v.items| ==> v.items[i].List?) ==> !IsNullLike(v)
  {
    || v.Null?
    || (v.List? && exists i :: 0 <= i < |v.items| && IsNullElement(v.items[i]))
    || v.NaN?
    || v.NaT?
  }

  /** No value of the record would be dropped. */
  predicate NoNullLike(rec: Record) {
    forall i :: 0 <= i < |rec| ==> !IsNullLike(rec[i].value)
  }

  /** `a` is `b` with some fields left out, the rest in their order and unchanged. */
  predicate IsSubsequence(a: Record, b: Record)
    decreases |b|
  {
    if |a| == 0 then true
    else if |b| == 0 then false
    else if a[0] == b[0] then IsSubsequence(a[1..], b[1..])
    else IsSubsequence(a, b[1..])
  }

  /** The dictionary comprehension of `prune_records`, field by field. */
  function KeepDefined(rec: Record): Record
    decreases |rec|
  {
    if |rec| == 0 then []
    else if IsNullLike(rec[0].value) then KeepDefined(rec[1..])
    else [rec[0]] + KeepDefined(rec[1..])
  }

  lemma {:induction false} KeepDefinedSpec(rec: Record)
    ensures IsSubsequence(KeepDefined(rec), rec)
    ensures NoNullLike(KeepDefined(rec))
    ensures forall f :: f in KeepDefined(rec) <==> f in rec && !IsNullLike(f.value)
    ensures |KeepDefined(rec)| <= |rec|
    decreases |rec|
  {
    if |rec| > 0 {
      KeepDefinedSpec(rec[1..]);
      assert forall f :: f in rec ==> f == rec[0] || f in rec[1..];
    }
  }

  /** `prune_records(rec)` on an already parsed record. */
  function Prune(rec: Record): (r: Record)
    ensures IsSubsequence(r, rec)
    ensures NoNullLike(r)
    ensures forall f :: f in r <==> f in rec && !IsNullLike(f.value)
    ensures |r| <= |rec|
  {
    KeepDefinedSpec(rec);
    KeepDefined(rec)
  }

  lemma {:induction false} SubsequenceKeys(a: Record, b: Record, k: string)
    requires IsSubsequence(a, b)
    ensures HasKey(a, k) ==> HasKey(b, k)
    ensures forall f :: f in a ==> f in b
    decreases |b|
  {
    if |a| > 0 && |b| > 0 {
      if a[0] == b[0] {
        SubsequenceKeys(a[1..], b[1..], k);
        assert forall f :: f in a ==> f == a[0] || f in a[1..];
        assert forall f :: f in b[1..] ==> f in b;
        if HasKey(a, k) && !HasKey(a[1..], k) {
          assert a[0].key == k;
          assert b[0].key == k;
        }
        assert forall i :: 1 <= i < |a| ==> a[i] == a[1..][i - 1];
        assert forall i :: 1 <= i < |b| ==> b[1..][i - 1] == b[i];
      } else {
        SubsequenceKeys(a, b[1..], k);
        assert forall f :: f in b[1..] ==> f in b;
        assert forall i :: 1 <= i < |b| ==> b[1..][i - 1] == b[i];
      }
    }
  }

  /** Pruning twice is pruning once. */
  lemma {:induction false} PruneIdempotent(rec: Record)
    ensures Prune(Prune(rec)) == Prune(rec)
    decreases |rec|
  {
    if |rec| > 0 {
      PruneIdempotent(rec[1..]);
      var rest := Prune(rec[1..]);
      if !IsNullLike(rec[0].value) {
        assert ([rec[0]] + rest)[1..] == rest;
      }
    }
  }

  /** A record is left as it is exactly when none of its values is null-like. */
  lemma {:induction false} PruneFixedPoint(rec: Record)
    ensures Prune(rec) == rec <==> NoNullLike(rec)
    decreases |rec|
  {
    if |rec| > 0 {
      var tail := rec[1..];
      PruneFixedPoint(tail);
      assert NoNullLike(rec) <==> !IsNullLike(rec[0].value) && NoNullLike(tail) by {
        assert forall i :: 1 <= i < |rec| ==> rec[i] == tail[i - 1];
      }
      if IsNullLike(rec[0].value) {
        assert |Prune(rec)| <= |tail| < |rec|;
      } else {
        assert Prune(rec) == [rec[0]] + Prune(tail);
        assert rec == [rec[0]] + tail;
        if Prune(rec) == rec {
          assert Prune(tail) == (Prune(rec))[1..] == tail;
        }
      }
    }
  }

  lemma {:induction false} KeepDefinedConcat(a: Record, b: Record)
    ensures KeepDefined(a + b) == KeepDefined(a) + KeepDefined(b)
    decreases |a|
  {
    if |a| == 0 {
      assert a + b == b;
      assert [] + KeepDefined(b) == KeepDefined(b);
    } else {
      assert (a + b)[0] == a[0];
      assert (a + b)[1..] == a[1..] + b;
      KeepDefinedConcat(a[1..], b);
      var rest := KeepDefined(a[1..]);
      assert [a[0]] + (rest + KeepDefined(b)) == ([a[0]] + rest) + KeepDefined(b);
    }
  }

  /** Pruning works field by field: a record split in two prunes as its halves. */
  lemma PruneConcat(a: Record, b: Record)
    ensures Prune(a + b) == Prune(a) + Prune(b)
  {
    KeepDefinedConcat(a, b);
  }

  /** Seen as a dictionary: a key survives exactly when its value is not
      null-like, and then it keeps that value. */
  lemma PruneGet(rec: Record, k: string)
    requires DistinctKeys(rec)
    ensures DistinctKeys(Prune(rec))
    ensures Get(Prune(rec), k) ==
      (match Get(rec, k)
       case Some(v) => if IsNullLike(v) then None else Some(v)
       case None => None)
  {
    var r := Prune(rec);
    forall i, j | 0 <= i < j < |r|
      ensures r[i].key != r[j].key
    {
      PruneDistinct(rec, i, j);
    }
    SubsequenceKeys(r, rec, k);
    match Get(rec, k)
    case None =>
    case Some(v) =>
      assert Field(k, v) in rec;
      if !IsNullLike(v) {
        assert Field(k, v) in r;
      }
  }

  /** Two fields of a pruned record never share a key when the input's did not. */
  lemma {:induction false} PruneDistinct(rec: Record, i: nat, j: nat)
    requires DistinctKeys(rec)
    requires i < j < |Prune(rec)|
    ensures Prune(rec)[i].key != Prune(rec)[j].key
    decreases |rec|
  {
    var rest := Prune(rec[1..]);
    assert DistinctKeys(rec[1..]);
    if IsNullLike(rec[0].value) {
      PruneDistinct(rec[1..], i, j);
    } else if i == 0 {
      var f := rest[j - 1];
      SubsequenceKeys(rest, rec[1..], f.key);
      assert f in rec[1..];
      assert f.key != rec[0].key;
    } else {
      PruneDistinct(rec[1..], i - 1, j - 1);
    }
  }

  /** The row `{"a": 1, "b": None, "c": NaN}` prunes to `{"a": 1}`. */
  lemma PruneExample()
    ensures Prune([Field("a", Int(1)), Field("b", Null), Field("c", NaN)]) == [Field("a", Int(1))]
  {
    var rec := [Field("a", Int(1)), Field("b", Null), Field("c", NaN)];
    assert rec[1..] == [Field("b", Null), Field("c", NaN)];
    assert rec[1..][1..] == [Field("c", NaN)];
  }

  /** A list is dropped for one null element, while an empty list is kept. */
  lemma PruneListExample()
    ensures Prune([Field("xs", List([Int(1), Null])), Field("ys", List([]))]) == [Field("ys", List([]))]
  {
    var rec := [Field("xs", List([Int(1), Null])), Field("ys", List([]))];
    assert IsNullElement(rec[0].value.items[1]);
    assert rec[1..] == [Field("ys", List([]))];
  }
}
