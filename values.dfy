/**
 * The JavaScript values that the library's validators, guards and result
 * wrappers take, and the shapes they return.
 *
 * A thrown exception is not a control transfer here: every operation that can
 * throw returns an `Outcome`, whose `Throws` case carries the thrown value.
 */
module Values {

  /** One octet of a `Uint8Array`. */
  type Byte = x: int | 0 <= x < 256

  /** The `null`-or-value convention of the result records. */
  datatype Option<T> = None | Some(value: T)

  /**
   * A JavaScript number, reduced to what the library distinguishes:
   * `Number.isInteger` holds of `Integer`, and fails for fractions,
   * `NaN` and the infinities, which are all `NonInteger`.
   */
  datatype Number = Integer(i: int) | NonInteger

  /** The constructor of a thrown error object. */
  datatype ErrorKind = PlainError | TypeError

  /**
   * A JavaScript value. `Object` is a plain object with its own enumerable
   * properties in enumeration order; `Bytes` is a `Uint8Array`; `Err` is an
   * instance of `Error` (or its subclass `TypeError`).
   */
  datatype Value =
    | Undefined
    | Null
    | Bool(b: bool)
    | Num(n: Number)
    | BigInt(big: int)
    | Str(s: string)
    | Array(items: seq<Value>)
    | Object(props: seq<(string, Value)>)
    | MapObject
    | Bytes(bytes: seq<Byte>)
    | Err(kind: ErrorKind, message: string)
    | Function

  /** `typeof value === 'object'`, which is true of `null` as well. */
  predicate TypeofObject(v: Value)
  {
    v.Null? || v.Array? || v.Object? || v.MapObject? || v.Bytes? || v.Err?
  }

  /** What calling a function did: it returned a value or threw one. */
  datatype Outcome<T> = Returns(value: T) | Throws(thrown: Value)

  /** A guard either returns nothing or throws an error of the given kind. */
  function Throw<T>(kind: ErrorKind, message: string): Outcome<T>
  {
    Throws(Err(kind, message))
  }

  /** A guard: returns when `holds`, and otherwise throws an error of `kind`. */
  function Guard(holds: bool, kind: ErrorKind, message: string): Outcome<()>
  {
    if holds then Returns(()) else Throw(kind, message)
  }

  /** `msg ?? fallback` for an optional message argument. */
  function OrDefault(msg: Option<string>, fallback: string): string
  {
    if msg.Some? then msg.value else fallback
  }

  /**
   * The `{ ok, data, error }` records of result.ts, exec.ts and wrap.ts;
   * `None` stands for `null`.
   */
  datatype Reply<T> = Reply(ok: bool, data: Option<T>, error: Option<string>)

  /** The success shape: `ok` is true, `data` holds `d`, `error` is `null`. */
  ghost predicate IsOkReply<T>(r: Reply<T>, d: T)
  {
    r.ok && r.data == Some(d) && r.error == None
  }

  /** The failure shape: `ok` is false, `data` is `null`, `error` is `msg`. */
  ghost predicate IsErrReply<T>(r: Reply<T>, msg: string)
  {
    !r.ok && r.data == None && r.error == Some(msg)
  }
}
