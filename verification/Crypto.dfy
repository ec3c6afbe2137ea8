/**
 The cryptographic primitives, as functions known only by their laws, and the
 sealed message keys built from them.
 */
module Crypto {
  import opened Wrappers
  import opened Bytes
  import opened Ids

  type Key = b: Bytes | |b| == 32 witness seq(32, _ => 0)
  type Nonce = b: Bytes | |b| == 24 witness seq(24, _ => 0)
  type SealedKey = b: Bytes | |b| == 80 witness seq(80, _ => 0)

  const TAG_SIZE := 16

  /** `agree` is X25519, `derive` is HKDF, `seal` and `unseal` are the AEAD, `sign` and `verify` are Ed25519. */
  datatype Primitives = Primitives(
    encPublic: Key -> Key,
    agree: (Key, Key) -> Option<Key>,
    derive: (Key, Bytes, string) -> Key,
    seal: (Key, Nonce, Bytes, Bytes) -> Bytes,
    unseal: (Key, Nonce, Bytes, Bytes) -> Option<Bytes>,
    signPublic: Key -> Key,
    sign: (Key, Bytes) -> Bytes,
    verify: (Key, Bytes, Bytes) -> bool)

  /** Two parties agree on one secret (section 6.1 of RFC 7748); agreement fails for degenerate points only. */
  ghost predicate AgreementLaw(c: Primitives) {
    forall a: Key, b: Key ::
      c.agree(a, c.encPublic(b)).Some? && c.agree(a, c.encPublic(b)) == c.agree(b, c.encPublic(a))
  }

  /**
   A ciphertext is a tag longer than its plaintext, opens to it, and opens to nothing else
   (section 2.8 of RFC 8439).
   */
  ghost predicate AeadLaw(c: Primitives) {
    && (forall k: Key, n: Nonce, aad: Bytes, pt: Bytes ::
          |c.seal(k, n, aad, pt)| == |pt| + TAG_SIZE && c.unseal(k, n, aad, c.seal(k, n, aad, pt)) == Some(pt))
    && (forall k: Key, n: Nonce, aad: Bytes, ct: Bytes ::
          c.unseal(k, n, aad, ct).Some? ==> ct == c.seal(k, n, aad, c.unseal(k, n, aad, ct).value))
  }

  ghost predicate SignatureLaw(c: Primitives) {
    forall seed: Key, m: Bytes :: c.verify(c.signPublic(seed), m, c.sign(seed, m))
  }

  ghost predicate Laws(c: Primitives) {
    AgreementLaw(c) && AeadLaw(c) && SignatureLaw(c)
  }

  // --- The laws can be met --------------------------------------------------------

  function MixedByte(x: byte, y: byte): byte {
    (x + y) % 256
  }

  function Mixed(a: Key, b: Key): Key {
    seq(32, i requires 0 <= i < 32 => MixedByte(a[i], b[i]))
  }

  function Toy(): Primitives {
    Primitives(
      a => a,
      (a: Key, b: Key) => Some(Mixed(a, b)),
      (ss, salt, info) => ss,
      (k: Key, n, aad, pt) => pt + k[..16],
      (k: Key, n, aad, ct: Bytes) =>
        if |ct| >= 16 && ct[|ct| - 16..] == k[..16] then Some(ct[..|ct| - 16]) else None,
      seed => seed,
      (seed: Key, m) => seed + seed,
      (pub: Key, m, sig) => sig == pub + pub)
  }

  lemma ToyObeysLaws()
    ensures Laws(Toy())
  {
    var c := Toy();
    forall a: Key, b: Key ensures c.agree(a, c.encPublic(b)) == c.agree(b, c.encPublic(a)) {
      assert Mixed(a, b) == Mixed(b, a);
    }
    forall k: Key, n: Nonce, aad: Bytes, pt: Bytes
      ensures |c.seal(k, n, aad, pt)| == |pt| + TAG_SIZE && c.unseal(k, n, aad, c.seal(k, n, aad, pt)) == Some(pt)
    {
      var ct := c.seal(k, n, aad, pt);
      assert ct[|ct| - 16..] == k[..16] && ct[..|ct| - 16] == pt;
    }
    forall k: Key, n: Nonce, aad: Bytes, ct: Bytes | c.unseal(k, n, aad, ct).Some?
      ensures ct == c.seal(k, n, aad, c.unseal(k, n, aad, ct).value)
    {
      assert ct == ct[..|ct| - 16] + ct[|ct| - 16..];
    }
  }

  // --- Sealed message keys ------------------------------------------------------------

  datatype SealError = MalformedBox | BadBox

  const SEAL_INFO := "msgr-seal-v1"

  function ZeroNonce(): Nonce {
    seq(24, _ => 0)
  }

  /** The key that seals a message key: both sides derive it from what they agreed on and the two public keys. */
  function WrapKey(c: Primitives, secret: Key, ephPub: Key, encPub: Key): Key {
    c.derive(secret, ephPub + encPub, SEAL_INFO)
  }

  /** None when the recipient's public key is degenerate. */
  function Sealed(c: Primitives, eph: Key, encPub: Key, conv: Id, account: Id, key: Key): (r: Option<SealedKey>)
    requires AeadLaw(c)
  {
    match c.agree(eph, encPub)
    case None => None
    case Some(secret) =>
      var ephPub := c.encPublic(eph);
      Some(ephPub + c.seal(WrapKey(c, secret, ephPub, encPub), ZeroNonce(), conv + account, key))
  }

  /** Copies into a 32-byte array, whatever there is. */
  function Filled(b: Bytes): Key {
    if |b| >= 32 then b[..32] else b + seq(32 - |b|, _ => 0)
  }

  lemma FilledIs(b: Bytes, i: nat)
    requires i < 32
    ensures Filled(b)[i] == if i < |b| then b[i] else 0
  {}

  function Opened(c: Primitives, encPriv: Key, conv: Id, account: Id, box: Bytes): Result<Key, SealError> {
    if |box| != 80 then Err(MalformedBox)
    else
      match c.agree(encPriv, box[..32])
      case None => Err(BadBox)
      case Some(secret) =>
        match c.unseal(WrapKey(c, secret, box[..32], c.encPublic(encPriv)), ZeroNonce(), conv + account, box[32..])
        case None => Err(BadBox)
        case Some(key) => Ok(Filled(key))
  }

  /** A key sealed to an account opens with that account's private key. */
  lemma SealedOpens(c: Primitives, eph: Key, encPriv: Key, conv: Id, account: Id, key: Key)
    requires AgreementLaw(c) && AeadLaw(c)
    ensures var box := Sealed(c, eph, c.encPublic(encPriv), conv, account, key);
            box.Some? && Opened(c, encPriv, conv, account, box.value) == Ok(key)
  {
    var encPub := c.encPublic(encPriv);
    var ephPub := c.encPublic(eph);
    assert c.agree(eph, encPub).Some? && c.agree(eph, encPub) == c.agree(encPriv, ephPub);
    var box := Sealed(c, eph, encPub, conv, account, key).value;
    assert box[..32] == ephPub;
    assert box[32..]
        == c.seal(WrapKey(c, c.agree(eph, encPub).value, ephPub, encPub), ZeroNonce(), conv + account, key);
    assert Filled(key) == key;
  }

  /**
   What a sealed key is, in the primitives alone: the ephemeral public key, and the message key
   under a key derived from the agreed secret, salted with both public keys, for this
   conversation and account. There is one exactly when the agreement succeeds.
   */
  lemma SealedIs(c: Primitives, eph: Key, encPub: Key, conv: Id, account: Id, key: Key)
    requires AeadLaw(c)
    ensures Sealed(c, eph, encPub, conv, account, key) ==
            match c.agree(eph, encPub)
            case None => None
            case Some(secret) =>
              Some(c.encPublic(eph)
                   + c.seal(c.derive(secret, c.encPublic(eph) + encPub, "msgr-seal-v1"), seq(24, _ => 0),
                            conv + account, key))
  {}

  /** A box opens to a key exactly when it seals that key, under what the agreement with its sender gives. */
  lemma OpenedWasSealed(c: Primitives, encPriv: Key, conv: Id, account: Id, box: Bytes, key: Key)
    requires AeadLaw(c)
    ensures Opened(c, encPriv, conv, account, box) == Ok(key) <==>
            && |box| == 80 && c.agree(encPriv, box[..32]).Some?
            && box[32..] == c.seal(c.derive(c.agree(encPriv, box[..32]).value, box[..32] + c.encPublic(encPriv),
                                            "msgr-seal-v1"),
                                   seq(24, _ => 0), conv + account, key)
    ensures Opened(c, encPriv, conv, account, box) == Err(MalformedBox) <==> |box| != 80
  {
    if |box| == 80 && c.agree(encPriv, box[..32]).Some? {
      var k := c.derive(c.agree(encPriv, box[..32]).value, box[..32] + c.encPublic(encPriv), "msgr-seal-v1");
      assert k == WrapKey(c, c.agree(encPriv, box[..32]).value, box[..32], c.encPublic(encPriv));
      UnsealedIs(c, k, conv + account, box[32..], key);
    }
  }

  lemma UnsealedIs(c: Primitives, k: Key, aad: Bytes, ct: Bytes, key: Key)
    requires AeadLaw(c) && |ct| == 48
    ensures
      var pt := c.unseal(k, ZeroNonce(), aad, ct);
      (pt.Some? && Filled(pt.value) == key) <==> ct == c.seal(k, seq(24, _ => 0), aad, key)
  {
    var pt := c.unseal(k, ZeroNonce(), aad, ct);
    assert ZeroNonce() == seq(24, _ => 0);
    if pt.Some? {
      assert ct == c.seal(k, ZeroNonce(), aad, pt.value) && |pt.value| == 32;
      assert Filled(pt.value) == pt.value;
    }
  }

  // --- As the programs compute them ------------------------------------------------------

  method SealWith(c: Primitives, eph: Key, encPub: Key, conv: Id, account: Id, key: Key) returns (r: Option<SealedKey>)
    requires AeadLaw(c)
    ensures r == Sealed(c, eph, encPub, conv, account, key)
  {
    var ephPub := c.encPublic(eph);
    var secret := c.agree(eph, encPub);
    if secret.None? {
      return None;
    }
    var salt: Bytes := [];
    salt := salt + ephPub;
    salt := salt + encPub;
    var k := c.derive(secret.value, salt, SEAL_INFO);
    var aad: Bytes := [];
    aad := aad + conv;
    aad := aad + account;
    var out: Bytes := [];
    out := out + ephPub;
    assert salt == ephPub + encPub && aad == conv + account && out == ephPub;
    out := out + c.seal(k, ZeroNonce(), aad, key);
    r := Some(out);
  }

  method Open(c: Primitives, encPriv: Key, conv: Id, account: Id, box: Bytes) returns (r: Result<Key, SealError>)
    ensures r == Opened(c, encPriv, conv, account, box)
  {
    if |box| != 80 {
      return Err(MalformedBox);
    }
    var ephPub: Key := box[..32];
    var pub := c.encPublic(encPriv);
    var secret := c.agree(encPriv, ephPub);
    if secret.None? {
      return Err(BadBox);
    }
    var salt: Bytes := [];
    salt := salt + ephPub;
    salt := salt + pub;
    assert salt == ephPub + pub;
    var k := c.derive(secret.value, salt, SEAL_INFO);
    var pt := c.unseal(k, ZeroNonce(), conv + account, box[32..]);
    if pt.None? {
      return Err(BadBox);
    }
    r := Ok(Filled(pt.value));
  }
}
