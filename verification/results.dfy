/** Failure-carrying values shared by every module of the model.

    The Python helpers signal failure by raising; the model returns a
    `Result` whose `Error` names the exception the code would raise. */
module Results {

  datatype Option<+T> = None | Some(value: T)

  /** The exceptions the modelled code raises, explicitly or through the
      Python runtime. */
  datatype Error =
    | EmptyFamily                        // poset2model on an empty collection
    | OperationNotHandled                // compatiblepreorders on an unknown operation
    | KeyError(key: string)              // a dictionary lookup of a missing key
    | IndexError                         // a list index out of range
    | TypeError                          // indexing into a value that is not a list

  datatype Result<+T> = Ok(value: T) | Err(error: Error) {

    predicate IsFailure() {
      Err?
    }

    function PropagateFailure<U>(): Result<U>
      requires Err?
    {
      Err(error)
    }

    function Extract(): T
      requires Ok?
    {
      value
    }
  }

  /** `[f(x) for x in xs]`, where `f` may raise: the results in order, or
      the error of the first element on which `f` fails. */
  function MapAll<A, B>(f: A -> Result<B>, xs: seq<A>): (r: Result<seq<B>>)
    ensures r.Ok? <==> forall i | 0 <= i < |xs| :: f(xs[i]).Ok?
    ensures r.Ok? ==> |r.value| == |xs| && forall i | 0 <= i < |xs| :: f(xs[i]) == Ok(r.value[i])
    ensures r.Err? ==> exists i :: 0 <= i < |xs| && f(xs[i]) == Err(r.error) &&
                                   forall j | 0 <= j < i :: f(xs[j]).Ok?
  {
    if |xs| == 0 then Ok([])
    else
      var first := f(xs[0]);
      var tail := xs[1..];
      assert forall i | 0 <= i < |tail| :: tail[i] == xs[i + 1];
      if first.Err? then Err(first.error)
      else
        var rest := MapAll(f, tail);
        if rest.Err? then
          var i :| 0 <= i < |tail| && f(tail[i]) == Err(rest.error) && forall j | 0 <= j < i :: f(tail[j]).Ok?;
          assert f(xs[i + 1]) == Err(rest.error);
          Err(rest.error)
        else
          Ok([first.value] + rest.value)
  }
}
