/** Option and Result, plus the exception classes the modelled Python code raises.
    A Python `raise` becomes an `Err` value; `:-` propagates it as the
    interpreter would unwind the call stack. */
module Wrappers {

  datatype Option<+T> = None | Some(value: T)

  /** The exception classes raised by the modelled code, by Python class. */
  datatype Error =
    | ValueError(message: string)
    | TypeError(message: string)
    | KeyError(key: string)
    | IndexError(message: string)
    | Raised(message: string)      // a plain `raise Exception(...)`
    | SystemExit(message: string)  // `sys.exit()`, which `except Exception` does not catch

  datatype Result<+T> = Ok(value: T) | Err(error: Error) {

    predicate IsFailure() {
      Err?
    }

    function PropagateFailure<U>(): Result<U>
      requires Err?
    {
      Err(error)
    }

    function Extract(): T
      requires Ok?
    {
      value
    }
  }

  /** A Python loop that applies `f` to each element in order and collects
      the results: the first element whose call raises ends the loop with
      that exception. */
  function MapAll<A, B>(f: A -> Result<B>, xs: seq<A>): (r: Result<seq<B>>)
    ensures r.Ok? <==> forall k :: 0 <= k < |xs| ==> f(xs[k]).Ok?
    ensures r.Ok? ==> |r.value| == |xs| && forall k :: 0 <= k < |xs| ==> r.value[k] == f(xs[k]).value
    ensures r.Err? ==> exists k :: 0 <= k < |xs| && f(xs[k]) == Err(r.error) && forall m :: 0 <= m < k ==> f(xs[m]).Ok?
    decreases |xs|
  {
    if |xs| == 0 then Ok([])
    else
      var first :- f(xs[0]);
      var rest :- MapAll(f, xs[1..]);
      var all := [first] + rest;
      assert forall k :: 1 <= k < |xs| ==> xs[1..][k - 1] == xs[k] && all[k] == rest[k - 1];
      Ok(all)
  }
}
