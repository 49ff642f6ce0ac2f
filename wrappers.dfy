/** Optional values, results that may carry an error, and the evaluation
    of a list of results that stops at the first failure. */
module Wrappers {

  datatype Option<+T> = None | Some(value: T)

  /** A value, or the error that aborted its computation; usable with `:-`. */
  datatype Result<+T, +E> = Success(value: T) | Failure(error: E) {
    predicate IsFailure() {
      Failure?
    }

    function PropagateFailure<U>(): Result<U, E>
      requires Failure?
    {
      Failure(error)
    }

    function Extract(): T
      requires Success?
    {
      value
    }
  }

  /** Evaluating `results` in order, as a loop or a list comprehension
      does: the first failure aborts, otherwise every value in order. */
  function Collect<T, E>(results: seq<Result<T, E>>): (r: Result<seq<T>, E>)
    ensures r.Success? <==> forall k :: 0 <= k < |results| ==> results[k].Success?
    ensures r.Success? ==> |r.value| == |results|
    ensures r.Success? ==> forall k :: 0 <= k < |results| ==> results[k] == Success(r.value[k])
    ensures r.Failure? ==>
      exists k :: 0 <= k < |results| && results[k] == Failure(r.error) &&
        forall j :: 0 <= j < k ==> results[j].Success?
  {
    if results == [] then Success([])
    else
      var front := results[..|results| - 1];
      assert forall k :: 0 <= k < |front| ==> front[k] == results[k];
      var values :- Collect(front);
      var last :- results[|results| - 1];
      Success(values + [last])
  }

  /** Evaluating one more result after a prefix that succeeded. */
  lemma CollectStep<T, E>(results: seq<Result<T, E>>, i: nat, values: seq<T>)
    requires i < |results| && Collect(results[..i]) == Success(values)
    ensures Collect(results[..i + 1]) ==
      if results[i].Success? then Success(values + [results[i].value]) else Failure(results[i].error)
  {
    assert results[..i + 1][..i] == results[..i];
  }

  /** The outcome of a prefix that already failed is the outcome of the
      whole sequence. */
  lemma {:induction false} CollectFailureSticks<T, E>(results: seq<Result<T, E>>, i: nat)
    requires i <= |results| && Collect(results[..i]).Failure?
    ensures Collect(results) == Collect(results[..i])
    decreases |results|
  {
    if i < |results| {
      var front := results[..|results| - 1];
      assert front[..i] == results[..i];
      CollectFailureSticks(front, i);
    } else {
      assert results[..i] == results;
    }
  }
}
