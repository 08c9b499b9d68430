/** Failure-carrying datatypes shared by every module of the model. */
module Wrappers {

  /** A value that may be absent (a Python `None` or a dictionary miss). */
  datatype Option<+T> = None | Some(value: T)

  /** Either a computed value or the error the Python code would raise. */
  datatype Result<+T, +E> = Ok(value: T) | Err(error: E)

  /** A failure at position `index` of a traversed sequence. */
  datatype Failed<+E> = Failed(index: nat, error: E)

  /** Applies `f` to each element in order and stops at the first failure,
      as a Python loop does when the body raises. */
  function Traverse<A, B, E>(f: A -> Result<B, E>, xs: seq<A>): Result<seq<B>, Failed<E>>
    decreases |xs|
  {
    if |xs| == 0 then Ok([])
    else match f(xs[0])
      case Err(e) => Err(Failed(0, e))
      case Ok(y) =>
        match Traverse(f, xs[1..])
        case Err(Failed(k, e)) => Err(Failed(k + 1, e))
        case Ok(ys) => Ok([y] + ys)
  }

  /** A traversal succeeds exactly when `f` succeeds everywhere, and then holds
      `f`'s results in order; otherwise it reports the first failing position. */
  lemma {:induction false} TraverseSpec<A, B, E>(f: A -> Result<B, E>, xs: seq<A>)
    ensures Traverse(f, xs).Ok? <==> forall i :: 0 <= i < |xs| ==> f(xs[i]).Ok?
    ensures Traverse(f, xs).Ok? ==> |Traverse(f, xs).value| == |xs|
    ensures Traverse(f, xs).Ok? ==> forall i :: 0 <= i < |xs| ==> Ok(Traverse(f, xs).value[i]) == f(xs[i])
    ensures Traverse(f, xs).Err? ==>
              && Traverse(f, xs).error.index < |xs|
              && f(xs[Traverse(f, xs).error.index]) == Err(Traverse(f, xs).error.error)
              && forall j :: 0 <= j < Traverse(f, xs).error.index ==> f(xs[j]).Ok?
    decreases |xs|
  {
    if |xs| > 0 {
      TraverseSpec(f, xs[1..]);
      assert forall i :: 1 <= i < |xs| ==> xs[1..][i - 1] == xs[i];
    }
  }

  /** Traversal works element by element: traversing a concatenation traverses its halves. */
  lemma {:induction false} TraverseAppend<A, B, E>(f: A -> Result<B, E>, xs: seq<A>, ys: seq<A>)
    requires Traverse(f, xs).Ok? && Traverse(f, ys).Ok?
    ensures Traverse(f, xs + ys) == Ok(Traverse(f, xs).value + Traverse(f, ys).value)
    decreases |xs|
  {
    if |xs| == 0 {
      assert xs + ys == ys;
      assert [] + Traverse(f, ys).value == Traverse(f, ys).value;
    } else {
      assert (xs + ys)[1..] == xs[1..] + ys;
      assert (xs + ys)[0] == xs[0];
      TraverseAppend(f, xs[1..], ys);
      var h := f(xs[0]).value;
      var t := Traverse(f, xs[1..]).value;
      var u := Traverse(f, ys).value;
      assert [h] + (t + u) == ([h] + t) + u;
    }
  }
}
