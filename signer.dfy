/**
 * Span signing: the `SpanSigner` capability, the Ed25519 signer built on a
 * 32-byte private key, and the keychain-backed signer that loads its key or
 * creates and stores one on first use.
 *
 * Curve25519 key derivation and signing come from a foreign library; they
 * are the two functions of `Curve`, whose types carry the only facts the SDK
 * relies on: 32-byte keys and 64-byte signatures.
 */
module Signer {
  import opened Wrappers
  import opened Hex

  type PrivateKey = k: seq<Byte> | |k| == 32 witness seq(32, _ => 0)
  type PublicKey = k: seq<Byte> | |k| == 32 witness seq(32, _ => 0)
  type SignatureBytes = s: seq<Byte> | |s| == 64 witness seq(64, _ => 0)

  datatype Curve = Curve(
    publicKeyOf: PrivateKey -> PublicKey,
    signWith: (PrivateKey, seq<Byte>) -> SignatureBytes)

  datatype SignerError =
    | InvalidKeyData      // `PrivateKey(rawRepresentation:)` refused the stored bytes
    | SigningFailed       // a signer implementation threw

  /**
   * The `SpanSigner` protocol: a public key rendered as hex, and a signing
   * function over digest bytes. Either may fail.
   */
  datatype SpanSigner = SpanSigner(
    publicKeyHex: Result<string, SignerError>,
    sign: seq<Byte> -> Result<seq<Byte>, SignerError>)

  /** `Ed25519Signer` over a private key. */
  function Ed25519(curve: Curve, key: PrivateKey): (s: SpanSigner)
    ensures s.publicKeyHex == Ok(HexString(curve.publicKeyOf(key)))
    ensures forall m :: s.sign(m) == Ok(curve.signWith(key, m))
  {
    SpanSigner(Ok(HexString(curve.publicKeyOf(key))), m => Ok(curve.signWith(key, m)))
  }

  /**
   * What the signer tests expect of any Ed25519 signer: a 64-character
   * lower-case hex public key, 64-byte signatures, and signing that gives
   * the same bytes every time (a function of key and message).
   */
  lemma Ed25519Shape(curve: Curve, key: PrivateKey, m: seq<Byte>)
    ensures var s := Ed25519(curve, key);
      && s.publicKeyHex.Ok?
      && |s.publicKeyHex.value| == 64
      && (forall i :: 0 <= i < 64 ==> IsLowerHex(s.publicKeyHex.value[i]))
      && s.sign(m).Ok? && |s.sign(m).value| == 64
    ensures StrictHex(Ed25519(curve, key).publicKeyHex.value) == Some(curve.publicKeyOf(key))
  {
    StrictRoundTrip(curve.publicKeyOf(key));
  }

  // ---------------------------------------------------------------------------
  // KeychainSigner
  // ---------------------------------------------------------------------------

  /** A generic-password keychain item is addressed by service and account. */
  datatype ItemKey = ItemKey(service: string, account: string)

  const DefaultService: string := "dev.causable.mac"
  const DefaultAccount: string := "device-key"

  /** A `KeychainSigner`: where its key lives, and the key it signs with. */
  datatype KeychainSigner = KeychainSigner(service: string, account: string, key: PrivateKey)

  /**
   * `publicKeyHex` and `sign` delegate unchanged to the wrapped Ed25519
   * signer: the keychain signer reports the public key of the stored key and
   * signs every message with that key, never failing.
   */
  function AsSpanSigner(ks: KeychainSigner, curve: Curve): (s: SpanSigner)
    ensures s.publicKeyHex == Ok(HexString(curve.publicKeyOf(ks.key)))
    ensures StrictHex(s.publicKeyHex.value) == Some(curve.publicKeyOf(ks.key))
    ensures forall m :: s.sign(m) == Ok(curve.signWith(ks.key, m))
  {
    StrictRoundTrip(curve.publicKeyOf(ks.key));
    Ed25519(curve, ks.key)
  }

  /**
   * The key `init(service:account:)` ends up with, and the keychain after it:
   * a stored item is used if it is a valid key, a stored item of the wrong
   * size makes the init throw, and with no item the freshly generated key is
   * stored and used.
   */
  function LoadOrCreate(items: map<ItemKey, seq<Byte>>, at: ItemKey, freshKey: PrivateKey)
    : (r: (Result<PrivateKey, SignerError>, map<ItemKey, seq<Byte>>))
    ensures r.0.Ok? ==> at in r.1 && r.1[at] == r.0.value
    ensures r.1.Keys == items.Keys + {at} || r.1 == items
    ensures forall k :: k in items && k != at ==> k in r.1 && r.1[k] == items[k]
  {
    if at in items then
      var data := items[at];
      if |data| == 32 then (Ok(data), items) else (Err(InvalidKeyData), items)
    else
      (Ok(freshKey), items[at := freshKey])
  }

  /**
   * Once an init has succeeded, every later init at the same item loads the
   * same key and leaves the keychain alone, whatever key it would generate.
   */
  lemma KeyStableAcrossRestarts(items: map<ItemKey, seq<Byte>>, at: ItemKey, fresh1: PrivateKey, fresh2: PrivateKey)
    requires LoadOrCreate(items, at, fresh1).0.Ok?
    ensures var (r1, items1) := LoadOrCreate(items, at, fresh1);
      LoadOrCreate(items1, at, fresh2) == (r1, items1)
  {
  }

  /** The generated key is used only when no item exists. */
  lemma FreshKeyOnlyWhenAbsent(items: map<ItemKey, seq<Byte>>, at: ItemKey, freshKey: PrivateKey)
    ensures LoadOrCreate(items, at, freshKey).1 != items <==> at !in items
    ensures at !in items ==> LoadOrCreate(items, at, freshKey).0 == Ok(freshKey)
  {
    if at !in items {
      assert at in LoadOrCreate(items, at, freshKey).1;
    }
  }

  /** The login keychain: generic-password items by service and account. */
  class Keychain {
    var items: map<ItemKey, seq<Byte>>

    constructor(items: map<ItemKey, seq<Byte>>)
      ensures this.items == items
    {
      this.items := items;
    }

    /**
     * `KeychainSigner.init`: load the key with `loadKey`; if that fails,
     * generate `freshKey` and store it with `saveKey` before using it.
     */
    method NewKeychainSigner(service: string, account: string, freshKey: PrivateKey)
      returns (r: Result<KeychainSigner, SignerError>)
      modifies this
      ensures var (key, after) := LoadOrCreate(old(items), ItemKey(service, account), freshKey);
        && items == after
        && (r.Ok? <==> key.Ok?)
        && (r.Ok? ==> r.value == KeychainSigner(service, account, key.value))
        && (r.Err? ==> r.error == key.error)
    {
      var at := ItemKey(service, account);
      if at in items {
        var keyData := items[at];
        if |keyData| == 32 {
          r := Ok(KeychainSigner(service, account, keyData));
        } else {
          r := Err(InvalidKeyData);
        }
      } else {
        items := items[at := freshKey];
        r := Ok(KeychainSigner(service, account, freshKey));
      }
    }
  }
}
