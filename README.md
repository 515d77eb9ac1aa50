# micro-lib core, modelled in Dafny

micro-lib is a small TypeScript utility library for Bitcoin-style applications. This project models the parts of it that have local logic:

- **The batching queue** (`Queue`, src/class/queue.ts).
  - Requests are buffered in order.
  - A single timer is armed on `push`.
  - Each time the timer fires, the whole buffer is dispatched if it fits in a batch. Otherwise the first `batch_size` entries are dispatched and the timer is re-armed.
- **Byte-level secp256k1 key handling** (src/lib/ecc.ts). This covers:
  - conversion between 32-byte x-only keys (BIP-340) and 33-byte compressed keys;
  - format detection;
  - secret and public key checks;
  - reduction and tweaking of secret keys modulo the group order n of SEC 2 version 2, section 2.4.1.
- **The validators.**
  - The `Test` predicates (src/lib/test.ts), the `Check` predicates (src/lib/validate.ts) and the regular-expression validators of src/lib/encode.ts.
  - The alphabets are base64 and base64url of RFC 4648 sections 4 and 5, base58, and the BIP-173 bech32 charset.
  - The throw-on-failure guards of src/lib/assert.ts and the `Assert` half of src/lib/validate.ts.
  - The validate-then-delegate shape of every `encode`/`decode` in src/lib/encode.ts.
- **Helpers.**
  - `sort_obj` and `parse_error` (src/lib/util.ts).
  - The `{ ok, data, error }` result records and their exception-catching wrappers: src/lib/result.ts, src/lib/exec.ts and src/lib/wrap.ts.

Modelling conventions:

- JavaScript values are the datatype `Values.Value`, and a JavaScript number is `Integer(i)` or `NonInteger`.
- A thrown exception is an outcome `Throws(value)`; a guard returns `Outcome<()>`.
- `String(x)` coercion is a parameter `show`, and so is the outcome of calling a wrapped function.
- The codec, curve and hash libraries are function parameters, so every property proved about a codec entry point holds whatever the codec does.
- The queue is a class whose fields `queue` and `timer` its methods update. The pending `setTimeout` is the boolean `timer`, and the timer firing is a call to `Process`.

Modules, one per source file:

- `Values`: shared value model.
- `Text`: pattern scanning shared by the regular expressions.
- `Test`, `Validate`, `Assert`, `Encode`, `Ecc`, `Util`, `Result`, `Exec` and `Wrap`: one per source file of the same name.
- `BatchQueue`: the queue.

Where the code's own behaviour is surprising, the model follows the code.

- **Bech32 pattern in encode.ts.** The bech32 pattern in src/lib/encode.ts admits upper-case data characters only. `Encode.LowercaseBech32Refused` shows that it therefore refuses the valid lower-case string `a12uel5l`, which `Test.is_bech32` accepts.
- **`__proto__` in `sort_obj`.** `sorted[key] = obj[key]` on a fresh object calls the prototype setter for the key `__proto__`, so that key is dropped from the result (`Util.Gather`). An own `__proto__` key can come from `JSON.parse`.
- **Filter in `sort_obj`.** The filter destructures each key string. It therefore drops keys shorter than two characters, not keys whose value is `undefined` (`Util.KeepLong`).

## Model

| member | source | states |
|---|---|---|
| Test.Exists | src/lib/test.ts:6-13 | holds for every value except `undefined` and `null` |
| Test.IsObject | src/lib/test.ts:19-21 | `typeof` is `object`, and the value is neither `null` nor an array |
| Test.HasItems | src/lib/test.ts:29-31 | an array with at least one element |
| Test.IsString | src/lib/test.ts:33-35 | `typeof` is `string` |
| Test.IsNumber | src/lib/test.ts:37-39 | an integral number (so never `NaN`) |
| Test.IsBigint | src/lib/test.ts:41-43 | `typeof` is `bigint` |
| Test.IsUchar | src/lib/test.ts:45-47 | an integer in [0, 0xFF] |
| Test.IsUshort | src/lib/test.ts:49-51 | an integer in [0, 0xFFFF] |
| Test.IsUint | src/lib/test.ts:53-55 | an integer in [0, 0xFFFFFFFF] |
| Test.IsBase58 | src/lib/test.ts:65-68 | a string that is one or more base58 characters |
| Test.IsBase64 | src/lib/test.ts:70-73 | a string that `^[a-zA-Z0-9+/]+={0,2}$` matches |
| Test.IsB64url | src/lib/test.ts:75-78 | a string that `^[a-zA-Z0-9\-_]+={0,2}$` matches |
| Test.IsBech32 | src/lib/test.ts:80-83 | a string that `^[a-z]+1[023456789acdefghjklmnpqrstuvwxyz]+$` matches |
| Test.IsHex | src/lib/test.ts:85-88 | a string with no character outside `[a-fA-F0-9]`, of even length |
| Test.IsHash | src/lib/test.ts:90-92 | a string that is hex and 64 characters long |
| Test.ExistsExactlyNonNullish | src/lib/test.ts:6-13 | `exists` is false exactly for `undefined` and `null` |
| Test.IsObjectClassifies | src/lib/test.ts:19-21 | `is_object` holds exactly for non-null, non-array objects (plain objects, maps, typed arrays, errors); such a value exists and has no items |
| Test.UnsignedRangesNest | src/lib/test.ts:45-55 | `is_uchar`, `is_ushort`, `is_uint` are integers in [0,255], [0,65535], [0,2^32-1], and each range lies inside the next |
| Test.HexAndHash | src/lib/test.ts:85-92 | the empty string is hex; hex has even length; `is_hash` is exactly hex of length 64 |
| Test.Base58AlphabetShape | src/lib/test.ts:65-68 | the base58 class is every ASCII digit and letter except `0`, `O`, `I`, `l` |
| Test.Bech32CharsetIsBip173 | src/lib/test.ts:80-83 | the bech32 data class is exactly the 32 characters of the BIP-173 charset, without `1`, `b`, `i`, `o` |
| Test.IsBase64IsPattern | src/lib/test.ts:70-73 | `is_base64` holds exactly for strings of one or more RFC 4648 section 4 characters followed by at most two `=` |
| Test.IsB64urlIsPattern | src/lib/test.ts:75-78 | `is_b64url` holds exactly for strings of one or more RFC 4648 section 5 characters followed by at most two `=` |
| Test.IsBech32IsPattern | src/lib/test.ts:80-83 | `is_bech32` holds exactly for a lower-case prefix, `1`, then one or more charset characters |
| Test.Base64LengthUnchecked | src/lib/test.ts:65-78 | no length-multiple-of-4 check (`abc` passes); three `=` fail; lone padding and the empty string fail |
| Text.MatchesPaddedIsPattern | src/lib/test.ts:70-78 | scanning off the trailing `=` decides the language `^[p]+={0,2}$` when `=` is outside the class |
| Text.MatchesSeparatedIsPattern | src/lib/test.ts:80-83 | splitting at the first `1` decides the language `^[hrp]+1[data]+$` when `1` is outside the prefix class |
| Validate.CheckExists | src/lib/validate.ts:6-13 | holds for every value except `undefined` and `null` |
| Validate.CheckHasItems | src/lib/validate.ts:15-17 | an array with at least one element |
| Validate.CheckIsNumber | src/lib/validate.ts:19-21 | `typeof` is `number`, integral or not |
| Validate.CheckIsBigint | src/lib/validate.ts:23-25 | `typeof` is `bigint` |
| Validate.CheckIsHex | src/lib/validate.ts:27-38 | a string with no character outside `[a-fA-F0-9]`, of even length |
| Validate.CheckIsHash | src/lib/validate.ts:40-45 | hex and 64 characters long |
| Validate.CheckAgreesWithTest | src/lib/validate.ts:4-45 | each `Check` predicate decides the same values as its `Test` twin, except that `Check.is_number` also accepts non-integers |
| Validate.AssertOk | src/lib/validate.ts:57-64 | throws exactly for `false`, with the given message or `Assertion failed!` |
| Validate.AssertOkPassesFalsy | src/lib/validate.ts:57-64 | `0`, `''`, `null` and `undefined` pass `ok`; `false` does not |
| Validate.AssertExists | src/lib/validate.ts:66-73 | returns exactly when `Check.exists` holds; otherwise throws the given message or the default |
| Validate.AssertIsNumber | src/lib/validate.ts:75-79 | returns exactly for any number; otherwise throws a `TypeError` |
| Validate.AssertIsBigint | src/lib/validate.ts:81-85 | returns exactly for bigints; otherwise throws a `TypeError` |
| Validate.AssertIsHex | src/lib/validate.ts:87-91 | returns exactly when `Check.is_hex` holds; otherwise throws a `TypeError` |
| Validate.AssertIsHash | src/lib/validate.ts:93-97 | returns exactly when `Check.is_hash` holds; otherwise throws a `TypeError` carrying the given message |
| Validate.AssertSize | src/lib/validate.ts:99-104 | returns exactly when the byte length equals `size`; otherwise throws an `Error` carrying the given message |
| Validate.AssertHasItems | src/lib/validate.ts:106-110 | returns exactly for non-empty arrays; otherwise throws the given message or the default |
| Assert.Ok | src/lib/assert.ts:5-12 | throws exactly for `false`, with the given message or `Assertion failed!` |
| Assert.Exists | src/lib/assert.ts:14-21 | returns exactly when `Test.exists` holds |
| Assert.IsEmpty | src/lib/assert.ts:23-27 | returns exactly for `null` and `undefined` |
| Assert.IsEmptyComplementsExists | src/lib/assert.ts:14-27 | `is_empty` passes exactly where `exists` throws |
| Assert.IsObject | src/lib/assert.ts:41-45 | returns exactly when `Test.is_object` holds |
| Assert.IsNumber | src/lib/assert.ts:53-57 | returns exactly when `Test.is_number` holds; otherwise throws a `TypeError` |
| Assert.IsBigint | src/lib/assert.ts:59-63 | returns exactly for bigints; otherwise throws a `TypeError` |
| Assert.IsHex | src/lib/assert.ts:65-69 | returns exactly when `Test.is_hex` holds; otherwise throws a `TypeError` |
| Assert.IsUchar | src/lib/assert.ts:71-75 | returns exactly when `Test.is_uchar` holds; otherwise throws a `TypeError` |
| Assert.IsUshort | src/lib/assert.ts:77-81 | returns exactly when `Test.is_ushort` holds; otherwise throws a `TypeError` |
| Assert.IsUint | src/lib/assert.ts:83-87 | returns exactly when `Test.is_uint` holds; otherwise throws a `TypeError` |
| Assert.UnsignedGuardsNest | src/lib/assert.ts:71-87 | passing a narrower unsigned guard implies passing the wider ones and `is_number`, with a non-negative value |
| Assert.IsHash | src/lib/assert.ts:95-99 | returns exactly when `Test.is_hash` holds; otherwise throws a `TypeError` carrying the given message |
| Assert.Size | src/lib/assert.ts:107-112 | returns exactly when the byte length equals `size` |
| Assert.HasItems | src/lib/assert.ts:114-118 | returns exactly for non-empty arrays |
| Assert.IsBase58 | src/lib/assert.ts:120-124 | returns exactly when `Test.is_base58` holds; otherwise throws `invalid base58 string` |
| Assert.IsBase64 | src/lib/assert.ts:126-130 | returns exactly when `Test.is_base64` holds; otherwise throws `invalid base64 string` |
| Assert.IsB64url | src/lib/assert.ts:132-136 | returns exactly when `Test.is_b64url` holds; otherwise throws `invalid base64url string` |
| Assert.IsBech32 | src/lib/assert.ts:138-142 | returns exactly when `Test.is_bech32` holds; otherwise throws `invalid bech32 string` |
| Assert.AgreesWithValidate | src/lib/assert.ts:5-118 | the guards of assert.ts and validate.ts return and throw alike, with two exceptions. `is_number` here rejects non-integers that validate.ts accepts. For `size` only returning agrees, because the default messages differ in case (`invalid input size` against `Invalid input size`) |
| Encode.IsBase58 | src/lib/encode.ts:114-116 | one or more characters of `[1-9A-HJ-NP-Za-km-z]` |
| Encode.IsBase64 | src/lib/encode.ts:123-125 | what `^[a-zA-Z0-9+/]+={0,2}$` matches |
| Encode.IsB64url | src/lib/encode.ts:133-135 | what `^[a-zA-Z0-9\-_]+={0,2}$` matches |
| Encode.IsBech32 | src/lib/encode.ts:143-145 | what `^[a-z]+1[02-9A-Z]+$` matches |
| Encode.AssertBase58 | src/lib/encode.ts:114-122 | returns exactly for non-empty strings over `[1-9A-HJ-NP-Za-km-z]` |
| Encode.AssertBase64 | src/lib/encode.ts:123-131 | returns exactly for base64 characters followed by at most two `=` |
| Encode.AssertB64url | src/lib/encode.ts:133-141 | returns exactly for base64url characters followed by at most two `=` |
| Encode.AssertBech32 | src/lib/encode.ts:143-151 | returns exactly for `[a-z]+1[02-9A-Z]+` |
| Encode.ValidatorsAgreeWithTest | src/lib/encode.ts:114-135 | the base58, base64 and base64url patterns here accept exactly what the `Test` ones accept |
| Encode.Bech32PatternsOverlapOnDigits | src/lib/encode.ts:143-145 | this bech32 pattern and `Test.is_bech32` both accept exactly the strings whose data part is all digits |
| Encode.LowercaseBech32Refused | src/lib/encode.ts:74-81 | the valid BIP-173 string `a12uel5l` passes `Test.is_bech32` but is refused here before the codec is called |
| Encode.AssertPrefix | src/lib/encode.ts:153-157 | returns exactly for non-empty strings |
| Encode.AssertUint | src/lib/encode.ts:159-163 | returns exactly for `Uint8Array` values |
| Encode.AssertWords | src/lib/encode.ts:165-172 | returns exactly for arrays all of whose elements are numbers, including the empty array |
| Encode.EncodeBytes | src/lib/encode.ts:14-17 | a non-`Uint8Array` input throws `invalid uint array`; otherwise the result is the codec's |
| Encode.B58chkDecode | src/lib/encode.ts:19-22 | input failing the base58 pattern throws its error; otherwise the result is the codec's |
| Encode.Base64Decode | src/lib/encode.ts:35-38 | input failing the base64 pattern throws its error; otherwise the result is the codec's |
| Encode.B64urlDecode | src/lib/encode.ts:51-54 | input failing the base64url pattern throws its error; otherwise the result is the codec's |
| Encode.Bech32Encode | src/lib/encode.ts:64-72 | the prefix is checked first, then the words, then the codec is called |
| Encode.Bech32Decode | src/lib/encode.ts:74-81 | input failing this file's bech32 pattern throws; otherwise the result is the codec's |
| Ecc.SerializePubkey | src/lib/ecc.ts:273-290 | 33 bytes as BIP-340 drop the first byte; 32 bytes as ECDSA gain `0x02`; every other case is unchanged |
| Ecc.SerializePubkeyIdempotent | src/lib/ecc.ts:273-290 | serializing twice in one format is serializing once |
| Ecc.XOnlyRoundTrip | src/lib/ecc.ts:273-290 | a 32-byte key survives going to ECDSA form and back |
| Ecc.CompressedRoundTrip | src/lib/ecc.ts:273-290 | a 33-byte key survives going to BIP-340 form and back exactly when its prefix is `0x02` |
| Ecc.GetPubkeyFormat | src/lib/ecc.ts:298-305 | 33 bytes are ECDSA, 32 bytes are BIP-340, any other length throws |
| Ecc.FormatOfKeyIsFixedPoint | src/lib/ecc.ts:273-305 | a key serialized in its reported format is unchanged; serializing to a format makes the key report that format |
| Ecc.VerifySeckey | src/lib/ecc.ts:129-138 | succeeds exactly for 32 bytes with 0 < value < n; the size check comes first, then `< n`, then `> 0`, each with its message |
| Ecc.VerifyPoint | src/lib/ecc.ts:238-247 | succeeds exactly when the compressed form of the key is on the curve |
| Ecc.VerifyPubkey | src/lib/ecc.ts:146-162 | BIP-340 requires 32 bytes, ECDSA 33, any other format throws `invalid format`; then the point is checked |
| Ecc.VerifyPubkeyChecksSizeFirst | src/lib/ecc.ts:151-161 | when size or format is wrong, the result does not depend on the curve check and is a throw |
| Ecc.GetSeckey | src/lib/ecc.ts:23-43 | the result is below n and congruent to the secret's value modulo n |
| Ecc.TweakSeckey | src/lib/ecc.ts:74-89 | the result is below n |
| Ecc.TweakIsModularAddition | src/lib/ecc.ts:74-89 | the tweaked key is `(key + tweak) mod n`; a tweak that is a multiple of n leaves the reduced key unchanged |
| Ecc.GetSeckeyAllowsZero | src/lib/ecc.ts:23-43 | `get_seckey` returns 0 for a secret equal to n, which `verify_seckey` would reject |
| Util.ParseError | src/lib/util.ts:32-36 | an error gives its message, a string gives itself, anything else gives `String(err)` |
| Util.Sort | src/lib/util.ts:22-23 | the sorted keys are a permutation of the keys |
| Util.SortSorted | src/lib/util.ts:22-23 | the sorted keys are in ascending string order |
| Util.SortOfSorted | src/lib/util.ts:22-23 | sorting keys already in order leaves them unchanged |
| Util.SortedPermutationUnique | src/lib/util.ts:22-23 | two sorted arrangements of the same keys are equal |
| Util.SortIsUnique | src/lib/util.ts:22-23 | any sorted permutation of the keys is the sort's result |
| Util.KeepLong | src/lib/util.ts:24 | keeps exactly the keys of two or more characters, and nothing new |
| Util.RetainSorted | src/lib/util.ts:24 | the filter keeps sorted keys in order |
| Util.Gather | src/lib/util.ts:25-28 | the built object has the given keys in order, except `__proto__`, whose assignment sets the prototype and makes no property; each key has the input's value for it |
| Util.SortObj | src/lib/util.ts:16-30 | Maps, arrays and non-objects come back unchanged; `null` throws a `TypeError`; a plain object gives a plain object |
| Util.SortObjOfObject | src/lib/util.ts:22-28 | the result's keys are sorted, are exactly the input's keys of two or more characters other than `__proto__`, and keep their values |
| Util.SortObjIdempotent | src/lib/util.ts:22-28 | sorting a plain object twice is sorting it once |
| Result.Ok | src/lib/result.ts:21-23 | `ok` is true, `data` holds the value, `error` is null |
| Result.Err | src/lib/result.ts:25-28 | `ok` is false and `data` null; `error` is an error's message or `String(err)` |
| Result.WrapFn | src/lib/result.ts:30-36 | the record is a success exactly when the function returned; a return gives `ok(value)`, a throw gives `err(thrown)` |
| Result.WrapFnRecovers | src/lib/result.ts:30-36 | a success record gives back what the function returned; a failure record carries the thrown error's message; what the function throws does not propagate |
| Result.WrappedGuards | src/lib/result.ts:30-36 | wrapping a guard gives a success exactly when the `Test` predicate holds, and otherwise the guard's message |
| Exec.Ok | src/lib/exec.ts:27-29 | `ok` is true, `data` holds the value, `error` is null |
| Exec.Err | src/lib/exec.ts:31-34 | `ok` is false and `data` null; `error` is an error's message or `String(err)` |
| Exec.WrapFunction | src/lib/exec.ts:36-42 | a returning function gives the success record of its value; a throwing one the failure record of what it threw |
| Exec.AgreesWithResult | src/lib/exec.ts:27-42 | the three functions build exactly the records of result.ts |
| Wrap.Data | src/lib/wrap.ts:20-22 | `ok` is true, `data` holds the value, `error` is null |
| Wrap.Error | src/lib/wrap.ts:24-26 | `ok` is false, `data` null, and `error` the given string |
| Wrap.ParseError | src/lib/wrap.ts:37-42 | an error gives its message, anything else gives `String(err)` |
| Wrap.ReturnWrap | src/lib/wrap.ts:28-34 | a returning function gives `data(value)`; a throwing one gives `error(parse_error(err))` |
| Wrap.AgreesWithResult | src/lib/wrap.ts:28-34 | `Return.wrap` builds exactly the records of `Result.wrap` |
| Wrap.ParseErrorAgreesWithUtil | src/lib/wrap.ts:37-42 | given that `String` returns a string unchanged, this `parse_error` is util.ts's |
| BatchQueue.Flush | src/class/queue.ts:61-76 | one firing splits the buffer into a batch of `min(length, batch_size)` entries and the rest, which together are the buffer; something remains exactly when the buffer was longer than a batch |
| BatchQueue.Queue.constructor | src/class/queue.ts:24-29 | starts with an empty buffer and no timer, so the invariant holds |
| BatchQueue.Queue.Schedule | src/class/queue.ts:47-51 | leaves a timer armed, arming one only when none is, and leaves the buffer alone |
| BatchQueue.Queue.Process | src/class/queue.ts:53-80 | dispatches and keeps what `Flush` says, in order; re-arms exactly when entries remain; keeps "armed iff entries waiting" |
| BatchQueue.Queue.Push | src/class/queue.ts:82-89 | appends the entry at the end, leaves a timer armed, and keeps the invariant |
| BatchQueue.DrainKeepsOrder | src/class/queue.ts:61-76 | with no more pushes, the dispatched batches put together are the buffer: nothing lost, duplicated or reordered |
| BatchQueue.DrainBatchSizes | src/class/queue.ts:61-76 | every batch is non-empty and at most `batch_size`, and every batch but the last is full |
| BatchQueue.DrainCount | src/class/queue.ts:61-76 | a buffer of n entries drains in ceil(n / batch_size) firings |
| BatchQueue.ZeroBatchNeverDrains | src/class/queue.ts:66-76 | with `batch_size` 0, a firing on a non-empty buffer dispatches nothing and keeps every entry |

## Left out

- src/class/mutex.ts is not part of this model. Its behaviour is asynchronous hand-off between promises and timeout races.
- Promise settlement is left out: `Promise.all` in `_process`, the promise `push` returns, and the calls of `resolve`/`reject`. Entries are opaque tokens, and dispatching one only places it in the returned batch.
- `setTimeout` and the delay `batch_ival` are left out. The timer is a boolean and its firing is an explicit call of `Process`.
- Queue accessors:
  - The accessors `config`, `queue`, `length` and `timer` are the class's fields.
  - The array aliasing of the `queue` accessor, through which a caller could mutate the buffer, is not modelled.
- `batch_size` is a natural number. A fractional or negative batch size is not modelled.
- Curve, hash and codec library calls are parameters or left out (`@noble/curves`, `@noble/hashes`, `@scure/base`). In src/lib/ecc.ts this covers:
  - `get_pubkey`, `tweak_pubkey`, `lift_point`, signing and signature verification;
  - the `even_y = true` branches of `get_seckey` and `tweak_seckey`;
  - src/lib/hash.ts as a whole.
- Ecc.VerifyPoint: whether bytes lie on the curve is the parameter `onCurve`.
- `serialize_bytes`/`Buff.bytes` parse hex strings and are foreign. Keys are taken as already-decoded byte sequences.
- Ecc.GetSeckey and Ecc.TweakSeckey return the key's integer value rather than its 32-byte encoding, because the byte width of `Buff.big` is foreign.
- src/lib/json.ts, src/lib/schema.ts and `Assert.is_schema` are not part of this model. They are serialisation and declarative schemas of foreign libraries.
- I/O and time are not part of this model: src/lib/fetch.ts, src/lib/logger.ts, `now`, `sleep`, `create_timeout` and `wrap_promise`.
- `Test.is_deep_equal`, `Test.is_equal`, `Test.is_bytes` and `Test.is_u8array` are left out, and so are the guards `Assert.is_instance`, `Assert.is_equal` and `Assert.is_bytes`. They depend on JavaScript coercion, constructors or the foreign `Buff` type.
- `Assert.is_u8a` calls `Test.is_u8a`, which src/lib/test.ts does not define, so it is not modelled.
- Messages that interpolate `String(value)` or `bytes.hex` keep only their fixed leading text.
- Encode.IsBase58, Encode.IsBase64, Encode.IsB64url and Encode.IsBech32 take strings. The source's coercion of non-strings before matching is not modelled.
- Encode.Bech32Encode: the bech32 `to_words`/`to_bytes` aliases are codec functions and are left out.
- Util.StrLe compares by code point, whereas `Array.prototype.sort` compares UTF-16 code units. The two differ only for characters outside the Basic Multilingual Plane.
- Util.OwnEntries lists object properties in the order given. The engine's ordering of integer-like keys ahead of others is not modelled.
- Util.SortObjIdempotent and Util.Gather: an object has no prototype in `Values.Value`. An own `__proto__` whose value is an object or `null` gives the first `sort_obj` result that prototype, and a second `sort_obj` builds on a fresh `{}` with the default one. Idempotence is therefore equality of own properties only.
- Util.SortObjOfObject: "sorted" holds for the order in which the result's keys are inserted. An engine lists integer-like keys first, in numeric order, so the real result lists `20` before `100` although `"100"` sorts first.
- `String(x)` coercion is the parameter `show`.
- Result.WrapFnRecovers, Result.Err, Exec.WrapFunction and Wrap.ReturnWrap assume `String(err)` does not throw. `String` of an object without a prototype, such as `Object.create(null)`, throws a `TypeError`, and that error would propagate out of the wrapper.
- BatchQueue.Queue.Process assumes no dispatched `fn` throws synchronously. If one did, `_process` would stop before replacing the buffer or arming the timer: the already-called entries stay queued and are called again after the next `push`.
- BatchQueue.Queue.Process assumes no dispatched `fn` pushes onto the same queue before its first `await`. In the whole-buffer branch of `_process`, such an entry lands in the array that `map` is walking, which is then replaced by `[]`. The entry is never dispatched, and the timer it armed stays armed over an empty buffer. In the other branch, `slice(index)` keeps the entry.
- BatchQueue.Queue.Process: the `config` accessor hands out the mutable configuration object, so a caller could change `batch_size` between firings. The model keeps the configuration fixed.
