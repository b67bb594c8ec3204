/** The two-track result of the trcks library, a pair ("failure", reason) or
    ("success", value), with the two combinators the pipeline chains: map_success
    (run a total function on the success track) and map_success_to_result (run a
    function that may itself fail). A failure skips every later step. */
module Results {

  datatype Result<+F, +S> = Failure(reason: F) | Success(value: S)

  /** map_success: apply f to a success value; a failure passes through as it is. */
  function MapSuccess<F, S, T>(r: Result<F, S>, f: S -> T): (m: Result<F, T>)
    ensures r.Failure? ==> m == Failure(r.reason)
    ensures r.Success? ==> m == Success(f(r.value))
  {
    match r
    case Failure(e) => Failure(e)
    case Success(v) => Success(f(v))
  }

  /** map_success_to_result: feed a success value to f, whose result becomes the
      result; a failure passes through and f is never applied. */
  function MapSuccessToResult<F, S, T>(r: Result<F, S>, f: S -> Result<F, T>): (m: Result<F, T>)
    ensures r.Failure? ==> m == Failure(r.reason)
    ensures r.Success? ==> m == f(r.value)
  {
    match r
    case Failure(e) => Failure(e)
    case Success(v) => f(v)
  }

  /** map_success is map_success_to_result with a step that never fails. */
  lemma MapSuccessIsBindOfSuccess<F, S, T>(r: Result<F, S>, f: S -> T)
    ensures MapSuccess(r, f) == MapSuccessToResult(r, v => Success(f(v)))
  {
  }

  /** The result is a failure exactly when the input or the step failed. */
  lemma MapSuccessToResultFailure<F, S, T>(r: Result<F, S>, f: S -> Result<F, T>)
    ensures MapSuccessToResult(r, f).Failure? <==> r.Failure? || f(r.value).Failure?
  {
  }
}
