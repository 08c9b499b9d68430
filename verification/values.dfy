/** One table row as the adapter sees it: an ordered list of field name and
    value pairs over a closed set of value kinds. */
module Values {
  import opened Wrappers

  datatype Value =
    | Null                  // Python None, JSON null
    | Bool(b: bool)
    | Int(i: int)
    | Num(repr: string)     // a float other than NaN (infinities included), carried as its Python str()
    | Str(s: string)
    | NaN                   // float('nan')
    | NaT                   // pandas' not-a-time marker
    | List(items: seq<Value>)

  datatype Field = Field(key: string, value: Value)

  /** A row (a pandas Series) or a parsed JSON object, in key order. */
  type Record = seq<Field>

  /** Python dictionaries and pandas row indexes hold each key once. */
  predicate DistinctKeys(r: Record) {
    forall i, j :: 0 <= i < j < |r| ==> r[i].key != r[j].key
  }

  predicate HasKey(r: Record, k: string) {
    exists i :: 0 <= i < |r| && r[i].key == k
  }

  /** `r[k]`: the value under key `k`, `None` where Python raises `KeyError`. */
  function Get(r: Record, k: string): (v: Option<Value>)
    ensures v.None? <==> !HasKey(r, k)
    ensures v.Some? ==> Field(k, v.value) in r
    ensures DistinctKeys(r) ==> forall i :: 0 <= i < |r| && r[i].key == k ==> v == Some(r[i].value)
    decreases |r|
  {
    if |r| == 0 then None
    else if r[0].key == k then Some(r[0].value)
    else
      assert forall i :: 1 <= i < |r| ==> r[i] == r[1..][i - 1];
      Get(r[1..], k)
  }
}
