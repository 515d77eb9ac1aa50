/**
 * The `Assert` namespace of src/lib/assert.ts: guards that return when the
 * matching `Test` predicate holds and throw otherwise. Messages that
 * interpolate `String(value)` keep only their fixed text.
 */
module Assert {
  import opened Values
  import Test
  import Validate

  /** Throws only for the value `false` itself. */
  function Ok(v: Value, message: Option<string>): (r: Outcome<()>)
    ensures r.Throws? <==> v == Bool(false)
    ensures r.Throws? ==> r.thrown == Err(PlainError, OrDefault(message, "Assertion failed!"))
  {
    Guard(v != Bool(false), PlainError, OrDefault(message, "Assertion failed!"))
  }

  function Exists(v: Value, msg: Option<string>): (r: Outcome<()>)
    ensures r.Returns? <==> Test.Exists(v)
    ensures r.Throws? ==> r.thrown == Err(PlainError, OrDefault(msg, "Value is null or undefined!"))
  {
    Guard(Test.Exists(v), PlainError, OrDefault(msg, "Value is null or undefined!"))
  }

  /** Throws unless the value is `null` or `undefined`. */
  function IsEmpty(v: Value, msg: Option<string>): (r: Outcome<()>)
    ensures r.Returns? <==> v == Null || v == Undefined
    ensures r.Throws? ==> r.thrown == Err(PlainError, OrDefault(msg, "value is not null or undefined!"))
  {
    Guard(v == Null || v == Undefined, PlainError, OrDefault(msg, "value is not null or undefined!"))
  }

  function IsObject(v: Value, msg: Option<string>): (r: Outcome<()>)
    ensures r.Returns? <==> Test.IsObject(v)
    ensures r.Throws? ==> r.thrown.Err? && r.thrown.kind == PlainError
    ensures r.Throws? && msg.Some? ==> r.thrown.message == msg.value
  {
    Guard(Test.IsObject(v), PlainError, OrDefault(msg, "value is not an object: "))
  }

  function IsNumber(v: Value): (r: Outcome<()>)
    ensures r.Returns? <==> Test.IsNumber(v)
    ensures r.Throws? ==> r.thrown.Err? && r.thrown.kind == TypeError
  {
    Guard(Test.IsNumber(v), TypeError, "invalid number: ")
  }

  function IsBigint(v: Value): (r: Outcome<()>)
    ensures r.Returns? <==> Test.IsBigint(v)
    ensures r.Throws? ==> r.thrown.Err? && r.thrown.kind == TypeError
  {
    Guard(Test.IsBigint(v), TypeError, "invalid bigint: ")
  }

  function IsHex(v: Value): (r: Outcome<()>)
    ensures r.Returns? <==> Test.IsHex(v)
    ensures r.Throws? ==> r.thrown.Err? && r.thrown.kind == TypeError
  {
    Guard(Test.IsHex(v), TypeError, "invalid hex: ")
  }

  function IsUchar(v: Value): (r: Outcome<()>)
    ensures r.Returns? <==> Test.IsUchar(v)
    ensures r.Throws? ==> r.thrown.Err? && r.thrown.kind == TypeError
  {
    Guard(Test.IsUchar(v), TypeError, "invalid unsignedchar: ")
  }

  function IsUshort(v: Value): (r: Outcome<()>)
    ensures r.Returns? <==> Test.IsUshort(v)
    ensures r.Throws? ==> r.thrown.Err? && r.thrown.kind == TypeError
  {
    Guard(Test.IsUshort(v), TypeError, "invalid unsigned short: ")
  }

  function IsUint(v: Value): (r: Outcome<()>)
    ensures r.Returns? <==> Test.IsUint(v)
    ensures r.Throws? ==> r.thrown.Err? && r.thrown.kind == TypeError
  {
    Guard(Test.IsUint(v), TypeError, "invalid unsigned int: ")
  }

  function IsHash(v: Value, msg: Option<string>): (r: Outcome<()>)
    ensures r.Returns? <==> Test.IsHash(v)
    ensures r.Throws? ==> r.thrown.Err? && r.thrown.kind == TypeError
    ensures r.Throws? && msg.Some? ==> r.thrown.message == msg.value
  {
    Guard(Test.IsHash(v), TypeError, OrDefault(msg, "invalid hash: "))
  }

  /** Throws when the byte length of `input` is not `size`. */
  function Size(input: seq<Byte>, size: int, msg: Option<string>): (r: Outcome<()>)
    ensures r.Returns? <==> |input| == size
    ensures r.Throws? ==> r.thrown.Err? && r.thrown.kind == PlainError
    ensures r.Throws? && msg.Some? ==> r.thrown.message == msg.value
  {
    Guard(|input| == size, PlainError, OrDefault(msg, "invalid input size: "))
  }

  function HasItems(v: Value, errMsg: Option<string>): (r: Outcome<()>)
    ensures r.Returns? <==> Test.HasItems(v)
    ensures r.Throws? ==> r.thrown == Err(PlainError, OrDefault(errMsg, "array does not contain any items"))
  {
    Guard(Test.HasItems(v), PlainError, OrDefault(errMsg, "array does not contain any items"))
  }

  function IsBase58(v: Value): (r: Outcome<()>)
    ensures r.Returns? <==> Test.IsBase58(v)
    ensures r.Throws? ==> r.thrown == Err(PlainError, "invalid base58 string")
  {
    Guard(Test.IsBase58(v), PlainError, "invalid base58 string")
  }

  function IsBase64(v: Value): (r: Outcome<()>)
    ensures r.Returns? <==> Test.IsBase64(v)
    ensures r.Throws? ==> r.thrown == Err(PlainError, "invalid base64 string")
  {
    Guard(Test.IsBase64(v), PlainError, "invalid base64 string")
  }

  function IsB64url(v: Value): (r: Outcome<()>)
    ensures r.Returns? <==> Test.IsB64url(v)
    ensures r.Throws? ==> r.thrown == Err(PlainError, "invalid base64url string")
  {
    Guard(Test.IsB64url(v), PlainError, "invalid base64url string")
  }

  function IsBech32(v: Value): (r: Outcome<()>)
    ensures r.Returns? <==> Test.IsBech32(v)
    ensures r.Throws? ==> r.thrown == Err(PlainError, "invalid bech32 string")
  {
    Guard(Test.IsBech32(v), PlainError, "invalid bech32 string")
  }

  /** `is_empty` passes exactly where `exists` throws. */
  lemma IsEmptyComplementsExists(v: Value, m1: Option<string>, m2: Option<string>)
    ensures IsEmpty(v, m1).Returns? <==> Exists(v, m2).Throws?
  {
  }

  /** The unsigned guards nest: passing a narrower one means passing the wider ones. */
  lemma UnsignedGuardsNest(v: Value)
    ensures IsUchar(v).Returns? ==> IsUshort(v).Returns?
    ensures IsUshort(v).Returns? ==> IsUint(v).Returns?
    ensures IsUint(v).Returns? ==> IsNumber(v).Returns? && v.n.i >= 0
  {
    Test.UnsignedRangesNest(v);
  }

  /**
   * The guards of assert.ts and validate.ts accept and reject the same values
   * and throw the same errors, except that `is_number` here rejects the
   * non-integers that validate.ts lets through.
   */
  lemma AgreesWithValidate(v: Value, msg: Option<string>, bytes: seq<Byte>, size: int)
    ensures Ok(v, msg) == Validate.AssertOk(v, msg)
    ensures Exists(v, msg) == Validate.AssertExists(v, msg)
    ensures HasItems(v, msg) == Validate.AssertHasItems(v, msg)
    ensures IsHex(v) == Validate.AssertIsHex(v)
    ensures IsHash(v, msg) == Validate.AssertIsHash(v, msg)
    ensures IsBigint(v) == Validate.AssertIsBigint(v)
    ensures Size(bytes, size, msg).Returns? <==> Validate.AssertSize(bytes, size, msg).Returns?
    ensures IsNumber(v).Returns? ==> Validate.AssertIsNumber(v).Returns?
    ensures IsNumber(Num(NonInteger)).Throws? && Validate.AssertIsNumber(Num(NonInteger)).Returns?
  {
    Validate.CheckAgreesWithTest(v);
  }
}
