/**
 * The byte-level key handling of src/lib/ecc.ts over secp256k1.
 *
 * Keys are byte sequences, read as big-endian integers. Curve arithmetic is
 * not modelled: whether bytes name a point on the curve is a parameter
 * `onCurve`, applied to the 33-byte compressed form the source lifts.
 */
module Ecc {
  import opened Values
  import Assert
  import Arith

  /** The order n of the secp256k1 group (SEC 2 version 2, section 2.4.1). */
  const N: nat := 0xFFFF_FFFF_FFFF_FFFF_FFFF_FFFF_FFFF_FFFE_BAAE_DCE6_AF48_A03B_BFD2_5E8C_D036_4141

  /** `Buff.big`: the bytes read as an unsigned big-endian integer. */
  function BigEndian(s: seq<Byte>): nat
  {
    if s == [] then 0 else BigEndian(s[..|s| - 1]) * 256 + s[|s| - 1]
  }

  /**
   * The two key formats, and any other string a caller passes at run time.
   * The strings `bip340` and `ecdsa` are `Bip340` and `Ecdsa`, so the name
   * of an `OtherFormat` is never one of them.
   */
  datatype Format = Bip340 | Ecdsa | OtherFormat(name: string)

  /** The SEC 1 (version 2, section 2.3.3) prefix byte of a compressed point with even y. */
  const EvenPrefix: Byte := 0x02

  /**
   * `serialize_pubkey`: a 33-byte key asked for as BIP-340 loses its first
   * byte, a 32-byte key asked for as ECDSA gains the even prefix, and every
   * other key comes back unchanged.
   */
  function SerializePubkey(pk: seq<Byte>, format: Format): (r: seq<Byte>)
    ensures r == pk || (|pk| == 33 && r == pk[1..]) || (|pk| == 32 && r == [EvenPrefix] + pk)
    ensures format == Bip340 && (|pk| == 32 || |pk| == 33) ==> |r| == 32 && r == pk[|pk| - 32..]
    ensures format == Ecdsa && (|pk| == 32 || |pk| == 33) ==> |r| == 33 && r[1..] == pk[|pk| - 32..]
    ensures !(format == Bip340 && |pk| == 33) && !(format == Ecdsa && |pk| == 32) ==> r == pk
  {
    if |pk| == 33 && format == Bip340 then pk[1..]
    else if |pk| == 32 && format == Ecdsa then [EvenPrefix] + pk
    else pk
  }

  /** Serializing a key twice in one format is serializing it once. */
  lemma SerializePubkeyIdempotent(pk: seq<Byte>, format: Format)
    ensures SerializePubkey(SerializePubkey(pk, format), format) == SerializePubkey(pk, format)
  {
  }

  /** An x-only key survives the trip to the compressed form and back. */
  lemma XOnlyRoundTrip(pk: seq<Byte>)
    requires |pk| == 32
    ensures SerializePubkey(SerializePubkey(pk, Ecdsa), Bip340) == pk
  {
  }

  /**
   * A compressed key survives the trip to the x-only form and back exactly
   * when its prefix is the even one: the odd prefix `0x03` is lost.
   */
  lemma CompressedRoundTrip(pk: seq<Byte>)
    requires |pk| == 33
    ensures SerializePubkey(SerializePubkey(pk, Bip340), Ecdsa) == pk <==> pk[0] == EvenPrefix
  {
    var x := SerializePubkey(pk, Bip340);
    assert x == pk[1..];
    var back := SerializePubkey(x, Ecdsa);
    assert back == [EvenPrefix] + pk[1..];
    if pk[0] == EvenPrefix {
      assert pk == [pk[0]] + pk[1..];
    } else {
      assert back[0] != pk[0];
    }
  }

  /** `get_pubkey_format`: 33 bytes are ECDSA, 32 bytes are BIP-340, anything else throws. */
  function GetPubkeyFormat(pk: seq<Byte>): (r: Outcome<Format>)
    ensures r.Returns? <==> |pk| == 32 || |pk| == 33
    ensures r.Returns? ==> (r.value == Ecdsa <==> |pk| == 33) && !r.value.OtherFormat?
    ensures r.Throws? ==> r.thrown.Err? && r.thrown.kind == PlainError
  {
    if |pk| == 33 then Returns(Ecdsa)
    else if |pk| == 32 then Returns(Bip340)
    else Throw(PlainError, "invalid pubkey: ")
  }

  /** A key serialized in the format `get_pubkey_format` reports for it is left as it is. */
  lemma FormatOfKeyIsFixedPoint(pk: seq<Byte>)
    requires GetPubkeyFormat(pk).Returns?
    ensures SerializePubkey(pk, GetPubkeyFormat(pk).value) == pk
    ensures GetPubkeyFormat(SerializePubkey(pk, Ecdsa)) == Returns(Ecdsa)
    ensures GetPubkeyFormat(SerializePubkey(pk, Bip340)) == Returns(Bip340)
  {
  }

  /**
   * `verify_seckey`: the size check, then `< n`, then `> 0`, each through the
   * `Assert` guards.
   */
  function VerifySeckey(sk: seq<Byte>): (r: Outcome<()>)
    ensures r.Returns? <==> |sk| == 32 && 0 < BigEndian(sk) < N
    ensures |sk| != 32 ==> r == Throw(PlainError, "ecdsa secret keys must be 32 bytes long")
    ensures |sk| == 32 && BigEndian(sk) >= N ==>
              r == Throw(PlainError, "ecdsa secret keys must be less than the curve order")
    ensures |sk| == 32 && BigEndian(sk) == 0 ==>
              r == Throw(PlainError, "ecdsa secret keys must be greater than zero")
  {
    var size := Assert.Size(sk, 32, Some("ecdsa secret keys must be 32 bytes long"));
    if size.Throws? then size
    else
      var below := Assert.Ok(Bool(BigEndian(sk) < N), Some("ecdsa secret keys must be less than the curve order"));
      if below.Throws? then below
      else Assert.Ok(Bool(BigEndian(sk) > 0), Some("ecdsa secret keys must be greater than zero"))
  }

  /** `verify_point`: lift the key to its compressed form and check it is on the curve. */
  function VerifyPoint(pk: seq<Byte>, onCurve: seq<Byte> -> bool): (r: Outcome<()>)
    ensures r.Returns? <==> onCurve(SerializePubkey(pk, Ecdsa))
  {
    if onCurve(SerializePubkey(pk, Ecdsa)) then Returns(())
    else Throw(PlainError, "invalid secp256k1 point: ")
  }

  /**
   * `verify_pubkey`: a BIP-340 key must be 32 bytes and an ECDSA key 33, any
   * other format is refused, and only then is the point checked.
   */
  function VerifyPubkey(pk: seq<Byte>, format: Format, onCurve: seq<Byte> -> bool): (r: Outcome<()>)
    ensures r.Returns? <==>
      ((format == Bip340 && |pk| == 32) || (format == Ecdsa && |pk| == 33)) && onCurve(SerializePubkey(pk, Ecdsa))
    ensures format.OtherFormat? ==> r == Throw(PlainError, "invalid format: " + format.name)
    ensures format == Bip340 && |pk| != 32 ==> r == Throw(PlainError, "bip340 public keys must be 32 bytes long")
    ensures format == Ecdsa && |pk| != 33 ==> r == Throw(PlainError, "ecdsa public keys must be 33 bytes long")
  {
    var size :=
      if format == Bip340 then Assert.Size(pk, 32, Some("bip340 public keys must be 32 bytes long"))
      else if format == Ecdsa then Assert.Size(pk, 33, Some("ecdsa public keys must be 33 bytes long"))
      else Throw(PlainError, "invalid format: " + format.name);
    if size.Throws? then size else VerifyPoint(pk, onCurve)
  }

  /** Size and format are settled before the point: for bad sizes the curve is never consulted. */
  lemma VerifyPubkeyChecksSizeFirst(pk: seq<Byte>, format: Format, c1: seq<Byte> -> bool, c2: seq<Byte> -> bool)
    requires !((format == Bip340 && |pk| == 32) || (format == Ecdsa && |pk| == 33))
    ensures VerifyPubkey(pk, format, c1) == VerifyPubkey(pk, format, c2)
    ensures VerifyPubkey(pk, format, c1).Throws?
  {
  }

  /** `get_seckey(secret, false)`: the secret's integer value reduced modulo n. */
  function GetSeckey(secret: seq<Byte>): (sk: nat)
    ensures sk < N
    ensures (BigEndian(secret) - sk) % N == 0
  {
    var x := BigEndian(secret);
    assert x == (x / N) * N + x % N;
    Arith.DivModUnique(x - x % N, N, x / N, 0);
    x % N
  }

  /**
   * `tweak_seckey(seckey, tweak, false)`: the reduced key plus the tweak's
   * value, reduced by the field addition, then reduced once more by the
   * closing `get_seckey`.
   */
  function TweakSeckey(seckey: seq<Byte>, tweak: seq<Byte>): (r: nat)
    ensures r < N
  {
    var sk := GetSeckey(seckey);
    var twk := BigEndian(tweak);
    var tweaked := (sk + twk) % N;
    tweaked % N
  }

  /** `(a mod n + b) mod n = (a + b) mod n`. */
  lemma ModAddLeft(a: nat, b: nat, n: nat)
    requires n > 0
    ensures (a % n + b) % n == (a + b) % n
  {
    var x := a % n + b;
    assert a + b == (a / n + x / n) * n + x % n;
    Arith.DivModUnique(a + b, n, a / n + x / n, x % n);
  }

  /**
   * Tweaking is addition modulo n of the two values: pre-reducing the key
   * changes nothing, and the tweak itself need not be below n.
   */
  lemma TweakIsModularAddition(seckey: seq<Byte>, tweak: seq<Byte>)
    ensures TweakSeckey(seckey, tweak) == (BigEndian(seckey) + BigEndian(tweak)) % N
    ensures BigEndian(tweak) % N == 0 ==> TweakSeckey(seckey, tweak) == GetSeckey(seckey)
  {
    var a, b := BigEndian(seckey), BigEndian(tweak);
    assert TweakSeckey(seckey, tweak) == ((a % N + b) % N) % N;
    assert GetSeckey(seckey) == a % N;
    ModAdd(a, b, N);
  }

  /** The arithmetic behind tweaking, for any modulus. */
  lemma ModAdd(a: nat, b: nat, n: nat)
    requires n > 0
    ensures ((a % n + b) % n) % n == (a + b) % n
    ensures b % n == 0 ==> (a + b) % n == a % n
  {
    ModAddLeft(a, b, n);
    var t := (a + b) % n;
    Arith.DivModUnique(t, n, 0, t);
    if b % n == 0 {
      ModAddLeft(b, a, n);
      assert b % n + a == a;
    }
  }

  /** `get_seckey` does not refuse a zero result, which `verify_seckey` would. */
  lemma GetSeckeyAllowsZero(secret: seq<Byte>)
    requires BigEndian(secret) == N
    ensures GetSeckey(secret) == 0
    ensures |secret| == 32 ==> VerifySeckey(secret).Throws?
  {
  }
}
