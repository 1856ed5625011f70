/** Optional values and the exceptions the modelled Java code can raise. */
module Outcomes {

  /** A value that may be absent; stands for a nullable Java reference. */
  datatype Option<+T> = None | Some(value: T) {
    function GetOr(default: T): T {
      match this
      case Some(v) => v
      case None => default
    }
  }

  /** The unchecked Java exceptions that escape the label parser. */
  datatype Failure =
    | StringIndexOutOfBounds   // String.substring with a bad range
    | ArrayIndexOutOfBounds    // indexing the result of String.split
    | NumberFormat             // Long.parseLong on a malformed id

  /** Either a computed value or the exception that aborted the computation. */
  datatype Result<+T> = Ok(value: T) | Err(failure: Failure) {
    predicate IsFailure() {
      Err?
    }

    function PropagateFailure<U>(): Result<U>
      requires Err?
    {
      Err(failure)
    }

    function Extract(): T
      requires Ok?
    {
      value
    }
  }

  /** Applies `f` to every element in order; the first failure aborts the whole sequence. */
  function AllOk<T, U>(xs: seq<T>, f: T -> Result<U>): (r: Result<seq<U>>)
    ensures r.Ok? <==> forall i :: 0 <= i < |xs| ==> f(xs[i]).Ok?
    ensures r.Ok? ==> |r.value| == |xs|
    ensures r.Ok? ==> forall i :: 0 <= i < |xs| ==> r.value[i] == f(xs[i]).value
    ensures r.Err? ==> exists i :: 0 <= i < |xs| && f(xs[i]).Err? && f(xs[i]).failure == r.failure && forall j :: 0 <= j < i ==> f(xs[j]).Ok?
  {
    if xs == [] then Ok([])
    else
      var first, rest := f(xs[0]), AllOk(xs[1..], f);
      assert forall i :: 1 <= i < |xs| ==> xs[i] == xs[1..][i - 1];
      if first.Err? then Err(first.failure)
      else if rest.Err? then Err(rest.failure)
      else Ok([first.value] + rest.value)
  }

  /** Two successes make a successful pair. */
  lemma AllOkPair<T, U>(f: T -> Result<U>, x1: T, x2: T, y1: U, y2: U)
    requires f(x1) == Ok(y1) && f(x2) == Ok(y2)
    ensures AllOk([x1, x2], f) == Ok([y1, y2])
  {
    var xs := [x1, x2];
    var r := AllOk(xs, f);
    assert xs[0] == x1 && xs[1] == x2;
    assert r.Ok?;
    assert r.value == [y1, y2];
  }

  /** The failure AllOk reports is the one of the first element that fails. */
  lemma AllOkFirstFailure<T, U>(xs: seq<T>, f: T -> Result<U>, i: int)
    requires 0 <= i < |xs| && f(xs[i]).Err?
    requires forall j :: 0 <= j < i ==> f(xs[j]).Ok?
    ensures AllOk(xs, f) == Err(f(xs[i]).failure)
  {
    var r := AllOk(xs, f);
    assert r.Err?;
    var k :| 0 <= k < |xs| && f(xs[k]).Err? && f(xs[k]).failure == r.failure && forall j :: 0 <= j < k ==> f(xs[j]).Ok?;
    assert k == i;
  }
}
