/**
 * src/lib/result.ts: the `{ ok, data, error }` constructors and `wrap`,
 * which runs a function and turns what it throws into a failure record.
 *
 * Calling the wrapped function is foreign: its `Outcome` is the argument.
 * `String(err)` is the parameter `show`.
 */
module Result {
  import opened Values
  import Test
  import Assert

  /** `result_ok`: the success record carrying `data`. */
  function Ok<T>(data: T): (r: Reply<T>)
    ensures IsOkReply(r, data)
  {
    Reply(true, Some(data), None)
  }

  /** `result_err`: the failure record, with an error's message or else the value as a string. */
  function Err<T>(err: Value, show: Value -> string): (r: Reply<T>)
    ensures !r.ok && r.data == None && r.error.Some?
    ensures err.Err? ==> r.error == Some(err.message)
    ensures !err.Err? ==> r.error == Some(show(err))
  {
    var msg := if err.Err? then err.message else show(err);
    Reply(false, None, Some(msg))
  }

  /** `wrap_fn`: the success record of what `fn` returned, or the failure record of what it threw. */
  function WrapFn<T>(fn: Outcome<T>, show: Value -> string): (r: Reply<T>)
    ensures r.ok <==> fn.Returns?
    ensures fn.Returns? ==> r == Ok(fn.value)
    ensures fn.Throws? ==> r == Err(fn.thrown, show)
  {
    match fn
    case Returns(data) => Ok(data)
    case Throws(err) => Err(err, show)
  }

  /**
   * A wrapped call never propagates what it throws: the record it builds
   * tells success from failure, gives back the returned value, and keeps the
   * message of a thrown error.
   */
  lemma WrapFnRecovers<T>(fn: Outcome<T>, show: Value -> string)
    ensures var r := WrapFn(fn, show);
      && (r.ok ==> fn == Returns(r.data.value) && r.error == None)
      && (!r.ok ==> fn.Throws? && r.data == None && r.error.Some?)
      && (fn.Throws? && fn.thrown.Err? ==> r.error == Some(fn.thrown.message))
  {
  }

  /**
   * Wrapping a guard of assert.ts turns it into a check: the record is a
   * success exactly when the `Test` predicate holds, and otherwise carries
   * the guard's message.
   */
  lemma WrappedGuards(v: Value, msg: Option<string>, show: Value -> string)
    ensures WrapFn(Assert.Exists(v, msg), show).ok <==> Test.Exists(v)
    ensures !Test.Exists(v) ==>
              WrapFn(Assert.Exists(v, msg), show).error == Some(OrDefault(msg, "Value is null or undefined!"))
    ensures WrapFn(Assert.IsHex(v), show).ok <==> Test.IsHex(v)
    ensures WrapFn(Assert.IsBase58(v), show).ok <==> Test.IsBase58(v)
    ensures !Test.IsBase58(v) ==> WrapFn(Assert.IsBase58(v), show).error == Some("invalid base58 string")
  {
  }
}
