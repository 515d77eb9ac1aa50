/**
 * src/lib/wrap.ts: the `Return` constructors, `Return.wrap`, and the file's
 * own `parse_error`.
 */
module Wrap {
  import opened Values
  import Result
  import Util

  /** `Return.data`. */
  function Data<T>(data: T): (r: Reply<T>)
    ensures IsOkReply(r, data)
  {
    Reply(true, Some(data), None)
  }

  /** `Return.error`: the failure record; the message is kept as given. */
  function Error<T>(err: string): (r: Reply<T>)
    ensures IsErrReply(r, err)
  {
    Reply(false, None, Some(err))
  }

  /** `parse_error`: an error's message, else `String(err)`. */
  function ParseError(err: Value, show: Value -> string): (msg: string)
    ensures err.Err? ==> msg == err.message
    ensures !err.Err? ==> msg == show(err)
  {
    if err.Err? then err.message else show(err)
  }

  /** `Return.wrap`. */
  function ReturnWrap<T>(fn: Outcome<T>, show: Value -> string): (r: Reply<T>)
    ensures fn.Returns? ==> r == Data(fn.value)
    ensures fn.Throws? ==> r == Error(ParseError(fn.thrown, show))
  {
    match fn
    case Returns(data) => Data(data)
    case Throws(err) => Error(ParseError(err, show))
  }

  /** `Return.wrap` builds the same records as `Result.wrap`. */
  lemma AgreesWithResult<T>(fn: Outcome<T>, show: Value -> string)
    ensures ReturnWrap(fn, show) == Result.WrapFn(fn, show)
  {
  }

  /**
   * This `parse_error` and the one in util.ts differ only in that util.ts
   * returns a string as it is; since `String` returns a string primitive
   * unchanged, the two are the same function.
   */
  lemma ParseErrorAgreesWithUtil(err: Value, show: Value -> string)
    requires forall s :: show(Str(s)) == s
    ensures ParseError(err, show) == Util.ParseError(err, show)
  {
  }
}
