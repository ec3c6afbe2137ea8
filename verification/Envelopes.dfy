/** Encrypting to a list of accounts and decrypting for one of them. */
module Envelopes {
  import opened Wrappers
  import opened Bytes
  import opened Ids
  import opened Crypto
  import opened Wire

  datatype Recipient = Recipient(account: Id, encPub: Key)

  /** Every random input of an encryption. */
  datatype Randomness = Randomness(key: Key, nonce: Nonce, ephemeral: seq<Key>)

  datatype SignedEnvelope = SignedEnvelope(env: Bytes, sig: Bytes)

  datatype EncryptError = WrongCount | WrongEphemerals | WontFit | BadUuid | DegenerateKey

  datatype DecryptError = NotRecipient | Failed | BadId

  const SIG_PREFIX := "msgr-env-v1"

  function Ascii(s: string): Bytes {
    seq(|s|, i requires 0 <= i < |s| => if s[i] < 256 as char then s[i] as int else 0)
  }

  /** What is signed. */
  function SignedBytes(env: Bytes): Bytes {
    Ascii(SIG_PREFIX) + env
  }

  function EnvelopeSize(n: nat, plaintext: Bytes): nat {
    FIXED_HEADER + n * RECIPIENT_ENTRY + NONCE_SIZE + 4 + |plaintext| + TAG_SIZE
  }

  /** The message key sealed to each recipient in turn; an error at the first key that is degenerate. */
  function SealedTo(c: Primitives, conv: Id, rs: seq<Recipient>, r: Randomness): (s: Option<seq<SealedRecipient>>)
    requires AeadLaw(c) && |r.ephemeral| >= |rs|
    ensures s.Some? ==> |s.value| == |rs|
  {
    if rs == [] then Some([])
    else
      var n := |rs| - 1;
      match SealedTo(c, conv, rs[..n], r)
      case None => None
      case Some(done) =>
        match Sealed(c, r.ephemeral[n], rs[n].encPub, conv, rs[n].account, r.key)
        case None => None
        case Some(box) => Some(done + [SealedRecipient(rs[n].account, box)])
  }

  /** The envelope of these keys, with the ciphertext bound to everything before it. */
  function Assembled(c: Primitives, h: Header, sealed: seq<SealedRecipient>, plaintext: Bytes, r: Randomness)
    : Envelope
  {
    var aad := Aad(Envelope(h, sealed, r.nonce, []));
    Envelope(h, sealed, r.nonce, c.seal(r.key, r.nonce, aad, plaintext))
  }

  function Encrypted(c: Primitives, h: Header, rs: seq<Recipient>, plaintext: Bytes, r: Randomness)
    : Result<Envelope, EncryptError>
    requires AeadLaw(c)
  {
    if |rs| < 1 || |rs| > MAX_RECIPIENTS then Err(WrongCount)
    else if |r.ephemeral| != |rs| then Err(WrongEphemerals)
    else if EnvelopeSize(|rs|, plaintext) > MAX_ENVELOPE_SIZE then Err(WontFit)
    else
      match SealedTo(c, h.conv, rs, r)
      case None => Err(DegenerateKey)
      case Some(sealed) => Ok(Assembled(c, h, sealed, plaintext, r))
  }

  /** The first entry for an account. */
  function EntryFor(rs: seq<SealedRecipient>, account: Id): (i: Option<nat>)
    ensures i.None? ==> forall j :: 0 <= j < |rs| ==> rs[j].account != account
    ensures i.Some? ==> i.value < |rs| && rs[i.value].account == account
                        && forall j :: 0 <= j < i.value ==> rs[j].account != account
  {
    if rs == [] then None
    else
      match EntryFor(rs[..|rs| - 1], account)
      case Some(i) => Some(i)
      case None => if rs[|rs| - 1].account == account then Some(|rs| - 1) else None
  }

  function Decrypted(c: Primitives, e: Envelope, aad: Bytes, account: Id, encPriv: Key): Result<Bytes, DecryptError> {
    match EntryFor(e.recipients, account)
    case None => Err(NotRecipient)
    case Some(i) =>
      match Opened(c, encPriv, e.header.conv, account, e.recipients[i].sealedKey)
      case Err(_) => Err(Failed)
      case Ok(key) =>
        match c.unseal(key, e.nonce, aad, e.ciphertext)
        case None => Err(Failed)
        case Some(plaintext) => Ok(plaintext)
  }

  // --- What is signed ---------------------------------------------------------------------

  /** Eleven fixed bytes and the whole envelope. */
  lemma SignedBytesAre(env: Bytes)
    ensures SignedBytes(env) == [109, 115, 103, 114, 45, 101, 110, 118, 45, 118, 49] + env
  {
    var p := Ascii(SIG_PREFIX);
    assert p == [109, 115, 103, 114, 45, 101, 110, 118, 45, 118, 49];
  }

  /** So a signature is one over a single envelope. */
  lemma SignedBytesDetermine(a: Bytes, b: Bytes)
    ensures SignedBytes(a) == SignedBytes(b) <==> a == b
    ensures |SignedBytes(a)| == 11 + |a| && SignedBytes(a)[11..] == a
  {
    SignedBytesAre(a);
    SignedBytesAre(b);
    hide SignedBytes;
    assert SignedBytes(a)[11..] == a && SignedBytes(b)[11..] == b;
  }

  // --- What an encryption is ----------------------------------------------------------------

  /** Every agreement there is to make succeeds. */
  ghost predicate Agrees(c: Primitives, rs: seq<Recipient>, r: Randomness)
    requires |r.ephemeral| >= |rs|
  {
    forall i :: 0 <= i < |rs| ==> c.agree(r.ephemeral[i], rs[i].encPub).Some?
  }

  lemma {:induction false} SealedToAll(c: Primitives, conv: Id, rs: seq<Recipient>, r: Randomness)
    requires AeadLaw(c) && |r.ephemeral| >= |rs|
    ensures SealedTo(c, conv, rs, r).Some? <==> Agrees(c, rs, r)
    decreases |rs|
  {
    if rs != [] {
      var n := |rs| - 1;
      SealedToAll(c, conv, rs[..n], r);
      SealedIs(c, r.ephemeral[n], rs[n].encPub, conv, rs[n].account, r.key);
      hide Sealed;
      assert Agrees(c, rs, r) <==> Agrees(c, rs[..n], r) && c.agree(r.ephemeral[n], rs[n].encPub).Some?;
    }
  }

  /** What is refused, and why: the number of recipients, that of the ephemeral keys, the size, or a degenerate key. */
  lemma EncryptedExactly(c: Primitives, h: Header, rs: seq<Recipient>, plaintext: Bytes, r: Randomness)
    requires AeadLaw(c)
    ensures
      var e := Encrypted(c, h, rs, plaintext, r);
      var counted := 1 <= |rs| <= 100;
      var matched := |r.ephemeral| == |rs|;
      var fits := 120 + 96 * |rs| + |plaintext| <= 65536;
      && (e == Err(WrongCount) <==> !counted)
      && (e == Err(WrongEphemerals) <==> counted && !matched)
      && (e == Err(WontFit) <==> counted && matched && !fits)
      && (e == Err(DegenerateKey) <==> counted && matched && fits && !Agrees(c, rs, r))
      && (e.Ok? <==> counted && matched && fits && Agrees(c, rs, r))
  {
    if |r.ephemeral| == |rs| { SealedToAll(c, h.conv, rs, r); }
    hide SealedTo, Agrees, Assembled;
  }

  /**
   What an encryption makes: the header as given, for every recipient in turn the message key
   sealed to its account, and the plaintext under that key, bound to all that stands before it.
   */
  lemma EncryptedIs(c: Primitives, h: Header, rs: seq<Recipient>, plaintext: Bytes, r: Randomness)
    requires AeadLaw(c) && Encrypted(c, h, rs, plaintext, r).Ok?
    ensures
      var e := Encrypted(c, h, rs, plaintext, r).value;
      && e.header == h && e.nonce == r.nonce && |e.recipients| == |rs| == |r.ephemeral|
      && (forall i :: 0 <= i < |rs| ==>
            && e.recipients[i].account == rs[i].account
            && Some(e.recipients[i].sealedKey)
               == Sealed(c, r.ephemeral[i], rs[i].encPub, h.conv, rs[i].account, r.key))
      && e.ciphertext == c.seal(r.key, r.nonce, Serialised(e)[..100 + 96 * |rs|], plaintext)
  {
    var e := Encrypted(c, h, rs, plaintext, r).value;
    EncryptedFits(c, h, rs, plaintext, r);
    assert AadLength(|rs|) == 100 + 96 * |rs|;
    forall i | 0 <= i < |rs|
      ensures e.recipients[i].account == rs[i].account
      ensures Some(e.recipients[i].sealedKey)
              == Sealed(c, r.ephemeral[i], rs[i].encPub, h.conv, rs[i].account, r.key)
    {
      SealedEach(c, h.conv, rs, r, i);
    }
    hide SealedTo, Sealed, Serialised, Aad, AadLength;
  }

  /**
   What decrypts, exactly: the first entry of the account holds a key that was sealed for it,
   and the ciphertext is the plaintext under that key, bound to the authenticated bytes.
   */
  lemma DecryptsExactly(c: Primitives, e: Envelope, aad: Bytes, account: Id, encPriv: Key, plaintext: Bytes)
    requires AeadLaw(c)
    ensures Decrypted(c, e, aad, account, encPriv) == Ok(plaintext) <==>
            exists i, key ::
              && IsFirst(e.recipients, account, i)
              && Opened(c, encPriv, e.header.conv, account, e.recipients[i].sealedKey) == Ok(key)
              && e.ciphertext == c.seal(key, e.nonce, aad, plaintext)
    ensures Decrypted(c, e, aad, account, encPriv) == Err(NotRecipient) <==>
            forall i :: 0 <= i < |e.recipients| ==> e.recipients[i].account != account
    ensures Decrypted(c, e, aad, account, encPriv) != Err(BadId)
  {
    hide Opened, EntryFor;
    var i := EntryFor(e.recipients, account);
    if i.Some? && Opened(c, encPriv, e.header.conv, account, e.recipients[i.value].sealedKey).Ok? {
      var key := Opened(c, encPriv, e.header.conv, account, e.recipients[i.value].sealedKey).value;
      assert IsFirst(e.recipients, account, i.value);
    }
  }

  /** The first entry of an account. */
  predicate IsFirst(rs: seq<SealedRecipient>, account: Id, i: int) {
    0 <= i < |rs| && rs[i].account == account && forall j :: 0 <= j < i ==> rs[j].account != account
  }

  // --- Encrypt, serialise, parse, decrypt ----------------------------------------------

  lemma {:induction false} SealedEach(c: Primitives, conv: Id, rs: seq<Recipient>, r: Randomness, i: nat)
    requires AeadLaw(c) && |r.ephemeral| >= |rs| && SealedTo(c, conv, rs, r).Some? && i < |rs|
    ensures Some(SealedTo(c, conv, rs, r).value[i].sealedKey)
            == Sealed(c, r.ephemeral[i], rs[i].encPub, conv, rs[i].account, r.key)
    ensures SealedTo(c, conv, rs, r).value[i].account == rs[i].account
  {
    if i < |rs| - 1 {
      SealedEach(c, conv, rs[..|rs| - 1], r, i);
    }
  }

  /** An encrypted envelope fits the wire, and its size is what was allowed for. */
  lemma EncryptedFits(c: Primitives, h: Header, rs: seq<Recipient>, plaintext: Bytes, r: Randomness)
    requires AeadLaw(c) && Encrypted(c, h, rs, plaintext, r).Ok?
    ensures var e := Encrypted(c, h, rs, plaintext, r).value;
            && Serialisable(e) && |Serialised(e)| == EnvelopeSize(|rs|, plaintext)
            && Aad(e) == Aad(Envelope(h, e.recipients, r.nonce, []))
            && Parsed(Serialised(e)) == Ok(e) && Serialised(e)[..AadLength(|rs|)] == Aad(e)
  {
    var e := Encrypted(c, h, rs, plaintext, r).value;
    hide HeaderBytes, Entries, ToBE, Laws, SealedTo;
    SerialisedParses(e);
    assert |Aad(e)| == AadLength(|rs|);
  }

  /** The first listing of an account. */
  lemma {:induction false} FirstListing(rs: seq<Recipient>, i: nat) returns (k: nat)
    requires i < |rs|
    ensures k <= i && rs[k].account == rs[i].account && forall j :: 0 <= j < k ==> rs[j].account != rs[i].account
  {
    k := 0;
    while rs[k].account != rs[i].account
      invariant k <= i && forall j :: 0 <= j < k ==> rs[j].account != rs[i].account
      decreases i - k
    {
      k := k + 1;
    }
  }

  lemma EntryIsListing(c: Primitives, conv: Id, rs: seq<Recipient>, r: Randomness, k: nat)
    requires AeadLaw(c) && |r.ephemeral| >= |rs| && SealedTo(c, conv, rs, r).Some? && k < |rs|
    requires forall j :: 0 <= j < k ==> rs[j].account != rs[k].account
    ensures EntryFor(SealedTo(c, conv, rs, r).value, rs[k].account) == Some(k)
  {
    var sealed := SealedTo(c, conv, rs, r).value;
    hide SealedTo, Sealed, EntryFor;
    SealedEach(c, conv, rs, r, k);
    forall j | 0 <= j < k ensures sealed[j].account != rs[k].account {
      SealedEach(c, conv, rs, r, j);
    }
  }

  /** Whoever is listed first under the public key of encPriv gets the message key and the plaintext. */
  lemma ListingDecrypts(c: Primitives, h: Header, rs: seq<Recipient>, plaintext: Bytes, r: Randomness, k: nat,
                        encPriv: Key)
    requires Laws(c) && Encrypted(c, h, rs, plaintext, r).Ok? && k < |rs| && rs[k].encPub == c.encPublic(encPriv)
    requires forall j :: 0 <= j < k ==> rs[j].account != rs[k].account
    ensures
      var e := Encrypted(c, h, rs, plaintext, r).value;
      Decrypted(c, e, Aad(e), rs[k].account, encPriv) == Ok(plaintext)
  {
    hide SealedTo, Sealed, Opened, EntryFor, Aad;
    EntryIsListing(c, h.conv, rs, r, k);
    SealedEach(c, h.conv, rs, r, k);
    SealedOpens(c, r.ephemeral[k], encPriv, h.conv, rs[k].account, r.key);
    assert Aad(Encrypted(c, h, rs, plaintext, r).value)
        == Aad(Envelope(h, Encrypted(c, h, rs, plaintext, r).value.recipients, r.nonce, [])) by {
      EncryptedFits(c, h, rs, plaintext, r);
    }
  }

  /**
   Round trip: an envelope encrypted to a list of accounts parses with every field,
   its signature verifies, and each account that is listed under the public key of
   encPriv (and not before under another) decrypts it to the plaintext.
   */
  lemma EncryptParseDecrypt(c: Primitives, seed: Key, h: Header, rs: seq<Recipient>, plaintext: Bytes, r: Randomness,
                            i: nat, encPriv: Key)
    requires Laws(c) && Encrypted(c, h, rs, plaintext, r).Ok? && i < |rs|
    requires rs[i].encPub == c.encPublic(encPriv)
    requires forall j :: 0 <= j < i && rs[j].account == rs[i].account ==> rs[j].encPub == rs[i].encPub
    ensures var e := Encrypted(c, h, rs, plaintext, r).value;
            var env := Serialised(e);
            && Parsed(env) == Ok(e) && e.header == h
            && c.verify(c.signPublic(seed), SignedBytes(env), c.sign(seed, SignedBytes(env)))
            && Decrypted(c, e, env[..AadLength(|rs|)], rs[i].account, encPriv) == Ok(plaintext)
  {
    var k := FirstListing(rs, i);
    EncryptedFits(c, h, rs, plaintext, r);
    EncryptedIs(c, h, rs, plaintext, r);
    ListingDecrypts(c, h, rs, plaintext, r, k, encPriv);
    hide SealedTo, Serialised, Serialisable, Aad, Parsed, Encrypted, Decrypted, SignedBytes, AeadLaw, AgreementLaw;
  }

  /**
   Whatever an account decrypts was sealed, with the key in its own entry, to exactly the
   bytes before the ciphertext.
   */
  lemma DecryptedWasBound(c: Primitives, env: Bytes, account: Id, encPriv: Key)
    requires AeadLaw(c) && Parsed(env).Ok?
    requires var e := Parsed(env).value;
             Decrypted(c, e, env[..AadLength(|e.recipients|)], account, encPriv).Ok?
    ensures var e := Parsed(env).value;
            var pt := Decrypted(c, e, env[..AadLength(|e.recipients|)], account, encPriv).value;
            var i := EntryFor(e.recipients, account);
            && i.Some? && Opened(c, encPriv, e.header.conv, account, e.recipients[i.value].sealedKey).Ok?
            && e.ciphertext == c.seal(Opened(c, encPriv, e.header.conv, account, e.recipients[i.value].sealedKey).value,
                                      e.nonce, Aad(e), pt)
  {
    ParsedSerialises(env);
    hide Opened, Aad, Parsed;
  }
}
