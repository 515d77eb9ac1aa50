/**
 * src/lib/exec.ts: its own copies of the result constructors and
 * `wrap_function`, written the same way as those of result.ts.
 */
module Exec {
  import opened Values
  import Result

  /** `result_ok`. */
  function Ok<T>(data: T): (r: Reply<T>)
    ensures IsOkReply(r, data)
  {
    Reply(true, Some(data), None)
  }

  /** `result_err`. */
  function Err<T>(err: Value, show: Value -> string): (r: Reply<T>)
    ensures !r.ok && r.data == None && r.error.Some?
    ensures err.Err? ==> r.error == Some(err.message)
    ensures !err.Err? ==> r.error == Some(show(err))
  {
    Reply(false, None, Some(if err.Err? then err.message else show(err)))
  }

  /** `wrap_function`. */
  function WrapFunction<T>(fn: Outcome<T>, show: Value -> string): (r: Reply<T>)
    ensures fn.Returns? ==> IsOkReply(r, fn.value)
    ensures fn.Throws? ==> r == Err(fn.thrown, show)
  {
    if fn.Returns? then Ok(fn.value) else Err(fn.thrown, show)
  }

  /** Executing a function here builds the same record as `Result.wrap` does. */
  lemma AgreesWithResult<T>(fn: Outcome<T>, show: Value -> string, data: T, err: Value)
    ensures WrapFunction(fn, show) == Result.WrapFn(fn, show)
    ensures Ok(data) == Result.Ok(data)
    ensures Err<T>(err, show) == Result.Err<T>(err, show)
  {
  }
}
