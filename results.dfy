/** Optional values and the outcome of a service call. */
module Results {

  /** A value that may be absent: Java's `null` and `Optional`. */
  datatype Option<+T> = None | Some(value: T) {
    /** The value if present, `default` otherwise: a setter guarded by a null check. */
    function UnwrapOr(default: T): T {
      if Some? then value else default
    }
  }

  /**
   * Why a service call failed. `NotFound` and `BadRequest` are the two
   * exceptions the services throw, with their message text. `DataAccess` is a
   * write or a lookup the database itself refuses: a violated column
   * constraint, or a single-result finder that matched several rows.
   */
  datatype Error =
    | NotFound(message: string)
    | BadRequest(message: string)
    | DataAccess(message: string)

  /** The outcome of a service call: a payload, or the error it failed with. */
  datatype Result<+T> = Ok(value: T) | Err(error: Error) {
    predicate IsFailure() { Err? }

    function PropagateFailure<U>(): Result<U>
      requires Err?
    {
      Err(error)
    }

    function Extract(): T
      requires Ok?
    {
      value
    }
  }

  /** The results taken in order, as a stream mapped through a throwing
      lookup and collected: all the values when every one succeeds,
      otherwise the error of the first that fails. */
  function Collect<T>(rs: seq<Result<T>>): (r: Result<seq<T>>)
    ensures r.Ok? <==> forall k :: 0 <= k < |rs| ==> rs[k].Ok?
    ensures r.Ok? ==> |r.value| == |rs| && forall k :: 0 <= k < |rs| ==> r.value[k] == rs[k].value
    ensures r.Err? ==> exists k :: 0 <= k < |rs| && (forall j :: 0 <= j < k ==> rs[j].Ok?)
                                   && rs[k].Err? && r.error == rs[k].error
  {
    if rs == [] then Ok([])
    else if rs[0].Err? then Err(rs[0].error)
    else
      var rest := Collect(rs[1..]);
      if rest.Err? then
        var k :| 0 <= k < |rs| - 1 && (forall j :: 0 <= j < k ==> rs[1..][j].Ok?)
                 && rs[1..][k].Err? && rest.error == rs[1..][k].error;
        assert rs[k + 1] == rs[1..][k];
        Err(rest.error)
      else
        Ok([rs[0].value] + rest.value)
  }
}
