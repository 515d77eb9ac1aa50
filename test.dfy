/**
 * The `Test` namespace of src/lib/test.ts: total predicates over JavaScript
 * values. The string formats are the library's own regular expressions; the
 * base64 alphabets are those of RFC 4648 (section 4 and section 5) and the
 * bech32 data characters those of BIP-173.
 */
module Test {
  import opened Values
  import Text

  /** `value` is neither `undefined` nor `null`. */
  predicate Exists(v: Value)
  {
    !(v.Undefined? || v.Null?)
  }

  /** `typeof value === 'object'`, not `null`, and not an array. */
  predicate IsObject(v: Value)
  {
    TypeofObject(v) && !v.Null? && !v.Array?
  }

  /** An array with at least one element. */
  predicate HasItems(v: Value)
  {
    v.Array? && |v.items| > 0
  }

  predicate IsString(v: Value)
  {
    v.Str?
  }

  /** `Number.isInteger(value) && !Number.isNaN(value)`. */
  predicate IsNumber(v: Value)
  {
    v.Num? && v.n.Integer?
  }

  predicate IsBigint(v: Value)
  {
    v.BigInt?
  }

  predicate IsUchar(v: Value)
  {
    IsNumber(v) && v.n.i >= 0 && v.n.i <= 0xFF
  }

  predicate IsUshort(v: Value)
  {
    IsNumber(v) && v.n.i >= 0 && v.n.i <= 0xFFFF
  }

  predicate IsUint(v: Value)
  {
    IsNumber(v) && v.n.i >= 0 && v.n.i <= 0xFFFF_FFFF
  }

  /**
   * The class written out in the base58 pattern,
   * `[123456789ABCDEFGHJKLMNPQRSTUVWXYZabcdefghijkmnopqrstuvwxyz]`,
   * read as the ranges it lists.
   */
  predicate IsBase58Char(c: char)
  {
    '1' <= c <= '9' || 'A' <= c <= 'H' || 'J' <= c <= 'N' || 'P' <= c <= 'Z' ||
    'a' <= c <= 'k' || 'm' <= c <= 'z'
  }

  /** `^[A-Za-z0-9+/]` of RFC 4648 section 4. */
  predicate IsBase64Char(c: char)
  {
    'a' <= c <= 'z' || 'A' <= c <= 'Z' || '0' <= c <= '9' || c == '+' || c == '/'
  }

  /** `^[A-Za-z0-9-_]` of RFC 4648 section 5. */
  predicate IsB64urlChar(c: char)
  {
    'a' <= c <= 'z' || 'A' <= c <= 'Z' || '0' <= c <= '9' || c == '-' || c == '_'
  }

  predicate IsLower(c: char)
  {
    'a' <= c <= 'z'
  }

  /**
   * The class written out in the bech32 pattern,
   * `[023456789acdefghjklmnpqrstuvwxyz]`, read as the ranges it lists.
   */
  predicate IsBech32Char(c: char)
  {
    c == '0' || '2' <= c <= '9' || c == 'a' || 'c' <= c <= 'h' || 'j' <= c <= 'n' || 'p' <= c <= 'z'
  }

  predicate IsHexDigit(c: char)
  {
    'a' <= c <= 'f' || 'A' <= c <= 'F' || '0' <= c <= '9'
  }

  /** `/^[base58]+$/`. */
  predicate IsBase58(v: Value)
  {
    v.Str? && Text.NonEmptyRun(v.s, IsBase58Char)
  }

  /** `/^[a-zA-Z0-9+/]+={0,2}$/`. */
  predicate IsBase64(v: Value)
  {
    v.Str? && Text.MatchesPadded(v.s, IsBase64Char)
  }

  /** `/^[a-zA-Z0-9\-_]+={0,2}$/`. */
  predicate IsB64url(v: Value)
  {
    v.Str? && Text.MatchesPadded(v.s, IsB64urlChar)
  }

  /** `/^[a-z]+1[bech32 charset]+$/`. */
  predicate IsBech32(v: Value)
  {
    v.Str? && Text.MatchesSeparated(v.s, IsLower, IsBech32Char)
  }

  /** A string with no character outside `[a-fA-F0-9]`, of even length. */
  predicate IsHex(v: Value)
  {
    v.Str? && Text.AllIn(v.s, IsHexDigit) && |v.s| % 2 == 0
  }

  predicate IsHash(v: Value)
  {
    IsString(v) && IsHex(v) && |v.s| == 64
  }

  /** `exists` fails for exactly the two nullish values. */
  lemma ExistsExactlyNonNullish(v: Value)
    ensures !Exists(v) <==> v == Undefined || v == Null
  {
  }

  /** `is_object` holds of every object that is not an array, and of nothing else. */
  lemma IsObjectClassifies(v: Value)
    ensures IsObject(v) <==> v.Object? || v.MapObject? || v.Bytes? || v.Err?
    ensures IsObject(v) ==> Exists(v) && !HasItems(v)
  {
  }

  /** The three unsigned ranges nest, each bound is inclusive, and each excludes negatives. */
  lemma UnsignedRangesNest(v: Value)
    ensures IsUchar(v) ==> IsUshort(v)
    ensures IsUshort(v) ==> IsUint(v)
    ensures IsUint(v) ==> IsNumber(v) && 0 <= v.n.i < 0x1_0000_0000
    ensures IsUchar(v) <==> IsNumber(v) && 0 <= v.n.i < 0x100
    ensures IsUshort(v) <==> IsNumber(v) && 0 <= v.n.i < 0x1_0000
  {
  }

  /** The empty string is valid hex; a hash is exactly a 64-character hex string. */
  lemma HexAndHash(v: Value)
    ensures IsHex(Str(""))
    ensures IsHash(v) <==> IsHex(v) && |v.s| == 64
    ensures IsHash(v) ==> Text.AllIn(v.s, IsHexDigit)
    ensures IsHex(v) ==> |v.s| % 2 == 0
  {
  }

  /** The base58 class is every ASCII digit and letter except `0`, `O`, `I`, `l`. */
  lemma Base58AlphabetShape(c: char)
    ensures IsBase58Char(c) <==>
      ('1' <= c <= '9' || 'A' <= c <= 'Z' || 'a' <= c <= 'z') && c != 'O' && c != 'I' && c != 'l'
  {
  }

  /** BIP-173's data character set, in its own order. */
  const Bip173Charset: string := "qpzry9x8gf2tvdw0s3jn54khce6mua7l"

  /** The pattern's class is the BIP-173 charset: 32 characters, without `1`, `b`, `i`, `o`. */
  lemma Bech32CharsetIsBip173(c: char)
    ensures IsBech32Char(c) <==> c in Bip173Charset
    ensures !IsBech32Char('1') && !IsBech32Char('b') && !IsBech32Char('i') && !IsBech32Char('o')
  {
    Bip173InClass();
    if IsBech32Char(c) {
      var k := c as int;
      if k <= 57 {
        assert k in {48, 50, 51, 52, 53, 54, 55, 56, 57};
      } else if k <= 104 {
        assert k in {97, 99, 100, 101, 102, 103, 104};
      } else if k <= 110 {
        assert k in {106, 107, 108, 109, 110};
      } else {
        assert k in {112, 113, 114, 115, 116, 117, 118, 119, 120, 121, 122};
      }
    }
  }

  /** Every character of the BIP-173 charset is in the pattern's class. */
  lemma Bip173InClass()
    ensures forall i :: 0 <= i < |Bip173Charset| ==> IsBech32Char(Bip173Charset[i])
  {
  }

  /** `is_base64` decides RFC 4648 section 4 characters followed by at most two `=`. */
  lemma IsBase64IsPattern(v: Value)
    ensures IsBase64(v) <==> v.Str? && Text.PaddedRun(v.s, IsBase64Char)
  {
    if v.Str? {
      Text.MatchesPaddedIsPattern(v.s, IsBase64Char);
    }
  }

  /** `is_b64url` decides RFC 4648 section 5 characters followed by at most two `=`. */
  lemma IsB64urlIsPattern(v: Value)
    ensures IsB64url(v) <==> v.Str? && Text.PaddedRun(v.s, IsB64urlChar)
  {
    if v.Str? {
      Text.MatchesPaddedIsPattern(v.s, IsB64urlChar);
    }
  }

  /** `is_bech32` decides: a lowercase prefix, `1`, then one or more charset characters. */
  lemma IsBech32IsPattern(v: Value)
    ensures IsBech32(v) <==> v.Str? && Text.SeparatedRun(v.s, IsLower, IsBech32Char)
  {
    if v.Str? {
      Text.MatchesSeparatedIsPattern(v.s, IsLower, IsBech32Char);
    }
  }

  /** Neither base64 pattern checks that the length is a multiple of four. */
  lemma Base64LengthUnchecked()
    ensures IsBase64(Str("abc")) && IsB64url(Str("a-_"))
    ensures !IsBase64(Str("=")) && !IsBase64(Str("ab===")) && !IsBase58(Str(""))
  {
    var s := "ab===";
    assert s[2] == '=' && s[3] == '=' && s[4] == '=';
  }
}
