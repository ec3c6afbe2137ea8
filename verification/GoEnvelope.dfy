/** The server's library: envelopes built by appending, parsed with a moving offset. */
module GoEnvelope {
  import opened Wrappers
  import opened Bytes
  import opened Ids
  import opened Crypto
  import opened Wire
  import opened Envelopes

  /** A parsed envelope keeps its bytes and where their authenticated part ends. */
  datatype ParsedEnvelope = ParsedEnvelope(envelope: Envelope, raw: Bytes, aadLength: nat)

  method EncryptWith(c: Primitives, seed: Key, hdr: Header, recipients: seq<Recipient>, plaintext: Bytes, r: Randomness)
    returns (result: Result<SignedEnvelope, EncryptError>)
    requires AeadLaw(c)
    ensures match Encrypted(c, hdr, recipients, plaintext, r)
            case Err(e) => result == Err(e)
            case Ok(e) => result == Ok(SignedEnvelope(Serialised(e), c.sign(seed, SignedBytes(Serialised(e)))))
  {
    hide HeaderBytes, Entries, Entry, SealedTo, Sealed, ToBE, Serialised, Aad, Assembled, SignedBytes, EnvelopeSize;
    var n := |recipients|;
    if n < 1 || n > MAX_RECIPIENTS {
      return Err(WrongCount);
    }
    if |r.ephemeral| != n {
      return Err(WrongEphemerals);
    }
    if EnvelopeSize(n, plaintext) > MAX_ENVELOPE_SIZE {
      return Err(WontFit);
    }
    HeaderAppended(hdr, n);
    var buf: Bytes := [];
    buf := buf + [VERSION as byte, hdr.flags];
    buf := buf + hdr.conv;
    buf := buf + hdr.senderAccount;
    buf := buf + hdr.senderDevice;
    buf := buf + hdr.clientMsg;
    buf := buf + ToBE(hdr.timestamp, 8);
    buf := buf + ToBE(n, 2);
    assert buf == HeaderBytes(hdr, n);
    SealedNone(c, hdr.conv, recipients, r);
    assert recipients[..0] == [];
    ghost var sealed: seq<SealedRecipient> := [];
    var i := 0;
    while i < n
      invariant 0 <= i <= n && |sealed| == i
      invariant SealedTo(c, hdr.conv, recipients[..i], r) == Some(sealed)
      invariant buf == HeaderBytes(hdr, n) + Entries(sealed)
    {
      var rc := recipients[i];
      SealedNext(c, hdr.conv, recipients, r, i, sealed);
      var box := SealWith(c, r.ephemeral[i], rc.encPub, hdr.conv, rc.account, r.key);
      if box.None? {
        NoneStays(c, hdr.conv, recipients, r, i + 1);
        return Err(DegenerateKey);
      }
      EntriesLast(sealed, SealedRecipient(rc.account, box.value));
      EntryAppended(buf, rc.account, box.value);
      buf := buf + rc.account;
      buf := buf + box.value;
      NextEntry(HeaderBytes(hdr, n), Entries(sealed), Entry(SealedRecipient(rc.account, box.value)));
      sealed := sealed + [SealedRecipient(rc.account, box.value)];
      i := i + 1;
    }
    assert recipients[..n] == recipients;
    TailAppended(c, hdr, sealed, plaintext, r);
    buf := buf + r.nonce;
    var aad := buf;
    buf := buf + ToBE(|plaintext| + TAG_SIZE, 4);
    buf := buf + c.seal(r.key, r.nonce, aad, plaintext);
    result := Ok(SignedEnvelope(buf, c.sign(seed, SignedBytes(buf))));
  }

  lemma HeaderAppended(h: Header, n: nat)
    ensures [] + [VERSION as byte, h.flags] + h.conv + h.senderAccount + h.senderDevice + h.clientMsg
            + ToBE(h.timestamp, 8) + ToBE(n, 2) == HeaderBytes(h, n)
    ensures Entries([]) == []
  {
    hide ToBE;
    var start: Bytes := [VERSION as byte, h.flags];
    assert [] + start == start;
  }

  lemma TailAppended(c: Primitives, h: Header, sealed: seq<SealedRecipient>, plaintext: Bytes, r: Randomness)
    requires AeadLaw(c)
    ensures var aad := HeaderBytes(h, |sealed|) + Entries(sealed) + r.nonce;
            aad + ToBE(|plaintext| + TAG_SIZE, 4) + c.seal(r.key, r.nonce, aad, plaintext)
            == Serialised(Assembled(c, h, sealed, plaintext, r))
  {
    hide HeaderBytes, Entries, ToBE;
  }

  lemma SealedNone(c: Primitives, conv: Id, rs: seq<Recipient>, r: Randomness)
    requires AeadLaw(c)
    ensures SealedTo(c, conv, [], r) == Some([])
    ensures Entries([]) == []
  {}

  lemma SealedNext(c: Primitives, conv: Id, rs: seq<Recipient>, r: Randomness, i: nat, sealed: seq<SealedRecipient>)
    requires AeadLaw(c) && |r.ephemeral| >= |rs| && i < |rs| && SealedTo(c, conv, rs[..i], r) == Some(sealed)
    ensures SealedTo(c, conv, rs[..i + 1], r) ==
            match Sealed(c, r.ephemeral[i], rs[i].encPub, conv, rs[i].account, r.key)
            case None => None
            case Some(box) => Some(sealed + [SealedRecipient(rs[i].account, box)])
  {
    hide Sealed;
    assert rs[..i + 1][..i] == rs[..i];
  }

  lemma EntryAppended(buf: Bytes, account: Id, box: SealedKey)
    ensures buf + account + box == buf + Entry(SealedRecipient(account, box))
  {}

  lemma NextEntry(a: Bytes, b: Bytes, c: Bytes)
    ensures a + b + c == a + (b + c)
  {}

  /** One degenerate key and the whole list fails. */
  lemma {:induction false} NoneStays(c: Primitives, conv: Id, rs: seq<Recipient>, r: Randomness, i: nat)
    requires AeadLaw(c) && |r.ephemeral| >= |rs| && i <= |rs| && SealedTo(c, conv, rs[..i], r).None?
    ensures SealedTo(c, conv, rs, r).None?
    decreases |rs|
  {
    if i < |rs| {
      assert rs[..|rs| - 1][..i] == rs[..i];
      NoneStays(c, conv, rs[..|rs| - 1], r, i);
    } else {
      assert rs[..i] == rs;
    }
  }

  method Parse(env: Bytes) returns (result: Result<ParsedEnvelope, Error>)
    ensures match Parsed(env)
            case Err(e) => result == Err(e)
            case Ok(e) => result == Ok(ParsedEnvelope(e, env, AadLength(|e.recipients|)))
                          && env[..result.value.aadLength] == Aad(e)
  {
    hide FromBE, Entries, Entry, HeaderBytes, ToBE;
    if |env| > MAX_ENVELOPE_SIZE {
      return Err(TooLarge);
    }
    if |env| < MIN_ENVELOPE {
      return Err(Malformed);
    }
    if env[0] != VERSION {
      return Err(BadVersion);
    }
    Widths();
    var hdr := Header(env[1], env[2..18], env[18..34], env[34..50], env[50..66], FromBE(env[66..74]));
    var n := FromBE(env[74..76]);
    if n < 1 || n > MAX_RECIPIENTS {
      return Err(BadRecipients);
    }
    var off := FIXED_HEADER;
    if |env| < off + n * RECIPIENT_ENTRY + NONCE_SIZE + 4 + TAG_SIZE {
      return Err(Malformed);
    }
    var recipients: seq<SealedRecipient> := [];
    while |recipients| < n
      invariant |recipients| <= n && off == FIXED_HEADER + RECIPIENT_ENTRY * |recipients|
      invariant recipients == EntriesAt(env, |recipients|)
    {
      recipients := recipients + [SealedRecipient(env[off..off + 16], env[off + 16..off + RECIPIENT_ENTRY])];
      off := off + RECIPIENT_ENTRY;
    }
    var nonce := env[off..off + NONCE_SIZE];
    off := off + NONCE_SIZE;
    var aadLength := off;
    var length := FromBE(env[off..off + 4]);
    off := off + 4;
    if length < TAG_SIZE || |env| - off != length {
      return Err(Malformed);
    }
    result := Ok(ParsedEnvelope(Envelope(hdr, recipients, nonce, env[off..]), env, aadLength));
    assert Parsed(env) == Ok(result.value.envelope);
    ParsedSerialises(env);
  }

  method IsRecipient(e: Envelope, account: Id) returns (yes: bool)
    ensures yes <==> exists i :: 0 <= i < |e.recipients| && e.recipients[i].account == account
  {
    var i := 0;
    while i < |e.recipients|
      invariant 0 <= i <= |e.recipients|
      invariant forall j :: 0 <= j < i ==> e.recipients[j].account != account
    {
      if e.recipients[i].account == account {
        return true;
      }
      i := i + 1;
    }
    yes := false;
  }

  method Decrypt(c: Primitives, p: ParsedEnvelope, account: Id, encPriv: Key)
    returns (result: Result<Bytes, DecryptError>)
    requires p.aadLength <= |p.raw|
    ensures result == Decrypted(c, p.envelope, p.raw[..p.aadLength], account, encPriv)
  {
    var e := p.envelope;
    var i := 0;
    while i < |e.recipients|
      invariant 0 <= i <= |e.recipients|
      invariant forall j :: 0 <= j < i ==> e.recipients[j].account != account
    {
      if e.recipients[i].account == account {
        assert EntryFor(e.recipients, account) == Some(i);
        var key := Open(c, encPriv, e.header.conv, account, e.recipients[i].sealedKey);
        if key.Err? {
          return Err(Failed);
        }
        var pt := c.unseal(key.value, e.nonce, p.raw[..p.aadLength], e.ciphertext);
        if pt.None? {
          return Err(Failed);
        }
        return Ok(pt.value);
      }
      i := i + 1;
    }
    result := Err(NotRecipient);
  }
}
