/**
 * src/lib/validate.ts: the `Check` predicates and the `Assert` guards built on
 * them. A guard that throws is an outcome `Throws(Err(kind, message))`;
 * messages that interpolate `String(value)` keep only their fixed text.
 */
module Validate {
  import opened Values
  import Test
  import Text

  predicate CheckExists(v: Value)
  {
    !(v.Undefined? || v.Null?)
  }

  predicate CheckHasItems(v: Value)
  {
    v.Array? && |v.items| > 0
  }

  /** `typeof value === 'number'`: any number, integral or not. */
  predicate CheckIsNumber(v: Value)
  {
    v.Num?
  }

  predicate CheckIsBigint(v: Value)
  {
    v.BigInt?
  }

  /** A string with no character outside `[a-fA-F0-9]`, of even length. */
  predicate CheckIsHex(v: Value)
  {
    v.Str? && Text.AllIn(v.s, Test.IsHexDigit) && |v.s| % 2 == 0
  }

  predicate CheckIsHash(v: Value)
  {
    CheckIsHex(v) && |v.s| == 64
  }

  /** Throws only for the value `false` itself. */
  function AssertOk(v: Value, message: Option<string>): (r: Outcome<()>)
    ensures r.Throws? <==> v == Bool(false)
    ensures r.Throws? ==> r.thrown == Err(PlainError, OrDefault(message, "Assertion failed!"))
  {
    Guard(v != Bool(false), PlainError, OrDefault(message, "Assertion failed!"))
  }

  function AssertExists(v: Value, msg: Option<string>): (r: Outcome<()>)
    ensures r.Returns? <==> CheckExists(v)
    ensures r.Throws? ==> r.thrown == Err(PlainError, OrDefault(msg, "Value is null or undefined!"))
  {
    Guard(CheckExists(v), PlainError, OrDefault(msg, "Value is null or undefined!"))
  }

  function AssertIsNumber(v: Value): (r: Outcome<()>)
    ensures r.Returns? <==> CheckIsNumber(v)
    ensures r.Throws? ==> r.thrown.Err? && r.thrown.kind == TypeError
  {
    Guard(CheckIsNumber(v), TypeError, "invalid number: ")
  }

  function AssertIsBigint(v: Value): (r: Outcome<()>)
    ensures r.Returns? <==> CheckIsBigint(v)
    ensures r.Throws? ==> r.thrown.Err? && r.thrown.kind == TypeError
  {
    Guard(CheckIsBigint(v), TypeError, "invalid bigint: ")
  }

  function AssertIsHex(v: Value): (r: Outcome<()>)
    ensures r.Returns? <==> CheckIsHex(v)
    ensures r.Throws? ==> r.thrown.Err? && r.thrown.kind == TypeError
  {
    Guard(CheckIsHex(v), TypeError, "invalid hex: ")
  }

  function AssertIsHash(v: Value, msg: Option<string>): (r: Outcome<()>)
    ensures r.Returns? <==> CheckIsHash(v)
    ensures r.Throws? ==> r.thrown.Err? && r.thrown.kind == TypeError
    ensures r.Throws? && msg.Some? ==> r.thrown.message == msg.value
  {
    Guard(CheckIsHash(v), TypeError, OrDefault(msg, "invalid hash: "))
  }

  /** Throws when the byte length of `input` is not `size`. */
  function AssertSize(input: seq<Byte>, size: int, msg: Option<string>): (r: Outcome<()>)
    ensures r.Returns? <==> |input| == size
    ensures r.Throws? ==> r.thrown.Err? && r.thrown.kind == PlainError
    ensures r.Throws? && msg.Some? ==> r.thrown.message == msg.value
  {
    Guard(|input| == size, PlainError, OrDefault(msg, "Invalid input size: "))
  }

  function AssertHasItems(v: Value, errMsg: Option<string>): (r: Outcome<()>)
    ensures r.Returns? <==> CheckHasItems(v)
    ensures r.Throws? ==> r.thrown == Err(PlainError, OrDefault(errMsg, "array does not contain any items"))
  {
    Guard(CheckHasItems(v), PlainError, OrDefault(errMsg, "array does not contain any items"))
  }

  /**
   * `Check` decides the same sets of values as `Test`, except that
   * `Check.is_number` also accepts numbers that are not integers.
   */
  lemma CheckAgreesWithTest(v: Value)
    ensures CheckExists(v) <==> Test.Exists(v)
    ensures CheckHasItems(v) <==> Test.HasItems(v)
    ensures CheckIsBigint(v) <==> Test.IsBigint(v)
    ensures CheckIsHex(v) <==> Test.IsHex(v)
    ensures CheckIsHash(v) <==> Test.IsHash(v)
    ensures Test.IsNumber(v) ==> CheckIsNumber(v)
    ensures CheckIsNumber(v) <==> Test.IsNumber(v) || v == Num(NonInteger)
  {
  }

  /** `false` is the only value `ok` rejects: `0`, `''`, `null` and `undefined` pass. */
  lemma AssertOkPassesFalsy(message: Option<string>)
    ensures AssertOk(Num(Integer(0)), message).Returns?
    ensures AssertOk(Str(""), message).Returns?
    ensures AssertOk(Null, message).Returns? && AssertOk(Undefined, message).Returns?
    ensures AssertOk(Bool(false), message).Throws?
  {
  }
}
