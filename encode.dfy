/**
 * src/lib/encode.ts: the file's own format validators and argument guards,
 * and the codec entry points that validate their input before handing it to
 * the codec library. The codecs themselves (base58check, base64, base64url
 * without padding, bech32, bech32m) are parameters: a codec is any function
 * from its input to an outcome, so a property that holds for every codec
 * cannot depend on what the codec does.
 */
module Encode {
  import opened Values
  import Test
  import Text

  /** `[1-9A-HJ-NP-Za-km-z]`. */
  predicate IsBase58Char(c: char)
  {
    '1' <= c <= '9' || 'A' <= c <= 'H' || 'J' <= c <= 'N' || 'P' <= c <= 'Z' ||
    'a' <= c <= 'k' || 'm' <= c <= 'z'
  }

  /** `/^[1-9A-HJ-NP-Za-km-z]+$/`. */
  predicate IsBase58(s: string)
  {
    Text.NonEmptyRun(s, IsBase58Char)
  }

  /** `/^[a-zA-Z0-9+/]+={0,2}$/`. */
  predicate IsBase64(s: string)
  {
    Text.MatchesPadded(s, Test.IsBase64Char)
  }

  /** `/^[a-zA-Z0-9\-_]+={0,2}$/`. */
  predicate IsB64url(s: string)
  {
    Text.MatchesPadded(s, Test.IsB64urlChar)
  }

  /** `[023456789ABCDEFGHIJKLMNOPQRSTUVWXYZ]`: digits other than `1`, and upper-case letters. */
  predicate IsBech32DataChar(c: char)
  {
    c == '0' || '2' <= c <= '9' || 'A' <= c <= 'Z'
  }

  /** `/^[a-z]+1[023456789ABCDEFGHIJKLMNOPQRSTUVWXYZ]+$/`. */
  predicate IsBech32(s: string)
  {
    Text.MatchesSeparated(s, Test.IsLower, IsBech32DataChar)
  }

  function AssertBase58(s: string): (r: Outcome<()>)
    ensures r.Returns? <==> IsBase58(s)
    ensures r.Throws? ==> r.thrown == Err(PlainError, "invalid base58 string")
  {
    Guard(IsBase58(s), PlainError, "invalid base58 string")
  }

  function AssertBase64(s: string): (r: Outcome<()>)
    ensures r.Returns? <==> IsBase64(s)
    ensures r.Throws? ==> r.thrown == Err(PlainError, "invalid base64 string")
  {
    Guard(IsBase64(s), PlainError, "invalid base64 string")
  }

  function AssertB64url(s: string): (r: Outcome<()>)
    ensures r.Returns? <==> IsB64url(s)
    ensures r.Throws? ==> r.thrown == Err(PlainError, "invalid base64url string")
  {
    Guard(IsB64url(s), PlainError, "invalid base64url string")
  }

  function AssertBech32(s: string): (r: Outcome<()>)
    ensures r.Returns? <==> IsBech32(s)
    ensures r.Throws? ==> r.thrown == Err(PlainError, "invalid bech32 string")
  {
    Guard(IsBech32(s), PlainError, "invalid bech32 string")
  }

  /** A human-readable prefix must be a non-empty string. */
  function AssertPrefix(v: Value): (r: Outcome<()>)
    ensures r.Returns? <==> v.Str? && v.s != ""
    ensures r.Throws? ==> r.thrown.Err? && r.thrown.kind == PlainError
  {
    Guard(v.Str? && |v.s| != 0, PlainError, "invalid prefix: ")
  }

  /** `value instanceof Uint8Array`. */
  function AssertUint(v: Value): (r: Outcome<()>)
    ensures r.Returns? <==> v.Bytes?
    ensures r.Throws? ==> r.thrown.Err? && r.thrown.kind == PlainError
  {
    Guard(v.Bytes?, PlainError, "invalid uint array: ")
  }

  /** An array all of whose elements are numbers; the empty array passes. */
  function AssertWords(v: Value): (r: Outcome<()>)
    ensures r.Returns? <==> v.Array? && forall i :: 0 <= i < |v.items| ==> v.items[i].Num?
    ensures r.Throws? ==> r.thrown.Err? && r.thrown.kind == PlainError
  {
    Guard(v.Array? && forall w :: w in v.items ==> w.Num?, PlainError, "invalid words: ")
  }

  /** `encode` of the byte codecs: reject a non-`Uint8Array`, else call the codec. */
  function EncodeBytes(data: Value, codec: seq<Byte> -> Outcome<string>): (r: Outcome<string>)
    ensures !data.Bytes? ==> r.Throws? && r.thrown.Err? && r.thrown.message == "invalid uint array: "
    ensures data.Bytes? ==> r == codec(data.bytes)
  {
    var g := AssertUint(data);
    if g.Throws? then Throws(g.thrown) else codec(data.bytes)
  }

  /** `B58chk.decode`: validate, then call the base58check codec. */
  function B58chkDecode(data: string, codec: string -> Outcome<seq<Byte>>): (r: Outcome<seq<Byte>>)
    ensures !IsBase58(data) ==> r == Throw(PlainError, "invalid base58 string")
    ensures IsBase58(data) ==> r == codec(data)
  {
    var g := AssertBase58(data);
    if g.Throws? then Throws(g.thrown) else codec(data)
  }

  /** `Base64.decode`: validate, then call the base64 codec. */
  function Base64Decode(data: string, codec: string -> Outcome<seq<Byte>>): (r: Outcome<seq<Byte>>)
    ensures !IsBase64(data) ==> r == Throw(PlainError, "invalid base64 string")
    ensures IsBase64(data) ==> r == codec(data)
  {
    var g := AssertBase64(data);
    if g.Throws? then Throws(g.thrown) else codec(data)
  }

  /** `B64url.decode`: validate, then call the unpadded base64url codec. */
  function B64urlDecode(data: string, codec: string -> Outcome<seq<Byte>>): (r: Outcome<seq<Byte>>)
    ensures !IsB64url(data) ==> r == Throw(PlainError, "invalid base64url string")
    ensures IsB64url(data) ==> r == codec(data)
  {
    var g := AssertB64url(data);
    if g.Throws? then Throws(g.thrown) else codec(data)
  }

  /** A bech32 `limit` argument: a number, or `false` for none. */
  type Limit = Option<int>

  /**
   * `Bech32.encode` and `Bech32m.encode` (they differ only in the codec):
   * check the prefix, then the words, then call the codec.
   */
  function Bech32Encode(prefix: Value, words: Value, limit: Limit,
                        codec: (string, seq<Value>, Limit) -> Outcome<string>): (r: Outcome<string>)
    ensures !(prefix.Str? && prefix.s != "") ==> r.Throws? && r.thrown == Err(PlainError, "invalid prefix: ")
    ensures prefix.Str? && prefix.s != "" && AssertWords(words).Throws? ==>
              r.Throws? && r.thrown == Err(PlainError, "invalid words: ")
    ensures AssertPrefix(prefix).Returns? && AssertWords(words).Returns? ==>
              r == codec(prefix.s, words.items, limit)
  {
    var p := AssertPrefix(prefix);
    if p.Throws? then Throws(p.thrown)
    else
      var w := AssertWords(words);
      if w.Throws? then Throws(w.thrown)
      else codec(prefix.s, words.items, limit)
  }

  /**
   * `Bech32.decode` and `Bech32m.decode`: validate with this file's bech32
   * pattern, then call the codec, returning its `{ prefix, words }`.
   */
  function Bech32Decode(data: string, limit: Limit,
                        codec: (string, Limit) -> Outcome<(string, seq<int>)>): (r: Outcome<(string, seq<int>)>)
    ensures !IsBech32(data) ==> r == Throw(PlainError, "invalid bech32 string")
    ensures IsBech32(data) ==> r == codec(data, limit)
  {
    var g := AssertBech32(data);
    if g.Throws? then Throws(g.thrown) else codec(data, limit)
  }

  /** The base58 and base64 patterns here accept exactly what the `Test` ones accept. */
  lemma ValidatorsAgreeWithTest(s: string)
    ensures IsBase58(s) <==> Test.IsBase58(Str(s))
    ensures IsBase64(s) <==> Test.IsBase64(Str(s))
    ensures IsB64url(s) <==> Test.IsB64url(Str(s))
  {
  }

  /** Digits other than `1`: the only data characters both bech32 patterns admit. */
  predicate IsDigitData(c: char)
  {
    c == '0' || '2' <= c <= '9'
  }

  /**
   * The bech32 pattern here and the one in `Test` share only the strings whose
   * data part is all digits: a lower-case data letter is refused here, and an
   * upper-case one is refused there.
   */
  lemma Bech32PatternsOverlapOnDigits(s: string)
    ensures IsBech32(s) && Test.IsBech32(Str(s)) <==> Text.MatchesSeparated(s, Test.IsLower, IsDigitData)
  {
    var k := Text.IndexOf(s, '1');
    if 1 <= k && k + 1 < |s| {
      var data := s[k + 1..];
      assert Text.AllIn(data, IsDigitData) <==>
             Text.AllIn(data, IsBech32DataChar) && Text.AllIn(data, Test.IsBech32Char);
    }
  }

  /**
   * `a12uel5l` is a valid BIP-173 string (prefix `a`, data `2uel5l`): the
   * `Test` pattern accepts it and this file's pattern, and so `Bech32.decode`,
   * refuses it before the codec is reached.
   */
  lemma LowercaseBech32Refused(codec: (string, Limit) -> Outcome<(string, seq<int>)>)
    ensures Test.IsBech32(Str("a12uel5l"))
    ensures !IsBech32("a12uel5l")
    ensures Bech32Decode("a12uel5l", None, codec) == Throw(PlainError, "invalid bech32 string")
  {
    var s := "a12uel5l";
    assert Text.IndexOf(s[1..], '1') == 0;
    assert Text.IndexOf(s, '1') == 1;
    assert s[2..][1] == 'u' && !IsBech32DataChar('u');
  }
}
