/** The web client's library: envelopes written into a buffer at moving offsets, identifiers as text. */
module WebEnvelope {
  import opened Wrappers
  import opened Bytes
  import opened Ids
  import opened Crypto
  import opened Wire
  import opened Envelopes

  /** Numbers are the client's: flags an integer, the timestamp any finite number. */
  datatype TextHeader = TextHeader(flags: int, convId: string, senderAccount: string, senderDevice: string,
                                   clientMsgId: string, timestampMs: real)

  datatype TextRecipient = TextRecipient(account: string, encPub: Key)

  datatype TextSealed = TextSealed(account: string, sealedKey: SealedKey)

  datatype TextEnvelope = TextEnvelope(flags: byte, convId: string, senderAccount: string, senderDevice: string,
                                       clientMsgId: string, timestampMs: nat, recipients: seq<TextSealed>,
                                       nonce: Nonce, ciphertext: Bytes, raw: Bytes, aadLen: nat)

  // --- Numbers ----------------------------------------------------------------------

  const TWO_53 := 0x20_0000_0000_0000
  const TWO_64 := 0x1_0000_0000_0000_0000

  /** What setBigUint64 stores for a timestamp: the floor, never below 0, in 64 bits. */
  function Stamp(ts: real): Uint64 {
    (if ts.Floor < 0 then 0 else ts.Floor) % TWO_64
  }

  function LowByte(flags: int): byte {
    flags % 256
  }

  /** The distance between the doubles around n. */
  function Spacing(n: nat): (u: nat)
    ensures u >= 1
  {
    if n < TWO_53 then 1 else 2 * Spacing(n / 2)
  }

  /** Number(n): the nearest double, ties to the even one. */
  function ToNumber(n: nat): nat {
    var u := Spacing(n);
    Rounded(u, n / u, n % u)
  }

  function Rounded(u: nat, q: nat, r: nat): nat {
    if 2 * r < u || (2 * r == u && q % 2 == 0) then q * u else (q + 1) * u
  }

  /** A number is read exactly when it is a multiple of the spacing around it; every one below 2^53 is. */
  lemma ReadExactly(n: nat)
    ensures ToNumber(n) == n <==> n % Spacing(n) == 0
    ensures n < TWO_53 ==> ToNumber(n) == n
  {
    var u := Spacing(n);
    Multiple(n, u);
  }

  lemma Multiple(n: nat, u: nat)
    requires u >= 1
    ensures n == n / u * u + n % u && 0 <= n % u < u
    ensures (n / u + 1) * u == n / u * u + u
  {
    hide *;
    assert (n / u + 1) * u == n / u * u + u;
  }

  /** The first timestamp the client misreads. */
  lemma FirstMisread()
    ensures ToNumber(TWO_53 + 1) == TWO_53
  {
    assert Spacing(TWO_53 / 2) == 1;
    assert Spacing((TWO_53 + 1) / 2) == 1 && Spacing(TWO_53 + 1) == 2;
  }

  /** A multiple of u, none is nearer to n, and of two that are as near it is the even one. */
  predicate IsNearest(n: nat, u: nat, d: nat)
    requires u >= 1
  {
    && d % u == 0 && 2 * n - u <= 2 * d <= 2 * n + u
    && (2 * d == 2 * n - u || 2 * d == 2 * n + u ==> d / u % 2 == 0)
  }

  /** Number(n) is the nearest of the doubles around n. */
  lemma NearestDouble(n: nat)
    ensures IsNearest(n, Spacing(n), ToNumber(n))
  {
    hide *;
    var q, r := NumberIs(n);
    Rounds(n, Spacing(n), q, r);
  }

  lemma NumberIs(n: nat) returns (q: nat, r: nat)
    ensures ToNumber(n) == Rounded(Spacing(n), q, r) && n == q * Spacing(n) + r && r < Spacing(n)
  {
    q, r := n / Spacing(n), n % Spacing(n);
    Multiple(n, Spacing(n));
    hide Spacing, Rounded;
  }

  lemma Rounds(n: nat, u: nat, q: nat, r: nat)
    requires u >= 1 && n == q * u + r && r < u
    ensures IsNearest(n, u, Rounded(u, q, r))
  {
    ExactMultiple(q, u);
    ExactMultiple(q + 1, u);
    NextMultiple(q, u);
    var p, next := q * u, (q + 1) * u;
    assert p % u == 0 && p / u == q && next == p + u && next % u == 0 && next / u == q + 1;
  }

  lemma NextMultiple(q: nat, u: nat)
    ensures (q + 1) * u == q * u + u
  {}

  lemma ExactMultiple(k: nat, u: nat)
    requires u >= 1
    ensures k * u % u == 0 && k * u / u == k
  {
    Multiple(k * u, u);
    Quotient(k * u, u, k, 0);
    hide *;
  }

  /** The spacing is the power of two that leaves 53 bits. */
  lemma {:induction false} SpacingLeaves(n: nat)
    ensures n >= TWO_53 ==> TWO_53 / 2 <= n / Spacing(n) < TWO_53
    ensures n < TWO_53 ==> Spacing(n) == 1
    decreases n
  {
    if n >= TWO_53 {
      var half := n / 2;
      SpacingLeaves(half);
      var u := Spacing(half);
      DividesHalf(n, u);
      assert half < TWO_53 ==> half / u == half;
    }
  }

  lemma DividesHalf(n: nat, u: nat)
    requires u >= 1
    ensures n / (2 * u) == n / 2 / u
  {
    var q, r := n / 2 / u, n / 2 % u;
    Multiple(n / 2, u);
    assert q * (2 * u) == 2 * (q * u);
    Quotient(n, 2 * u, q, 2 * r + n % 2);
    hide *;
  }

  /** What is stored of a timestamp: nothing of a negative one, else its whole part, modulo two to the 64. */
  lemma StampIs(ts: real)
    ensures ts < 0.0 ==> Stamp(ts) == 0
    ensures 0.0 <= ts < 18446744073709551616.0 ==> Stamp(ts) as real <= ts < Stamp(ts) as real + 1.0
    ensures ts >= 0.0 ==> Stamp(ts + 18446744073709551616.0) == Stamp(ts)
  {
    if ts >= 0.0 {
      var m := ts.Floor;
      assert (ts + 18446744073709551616.0).Floor == m + TWO_64;
      assert (m + TWO_64) % TWO_64 == m % TWO_64;
    }
  }

  /** A flag byte is stored as it is, any other integer by its low byte. */
  lemma LowByteIs(flags: int)
    ensures 0 <= flags < 256 ==> LowByte(flags) == flags
    ensures LowByte(flags + 256) == LowByte(flags)
  {}

  // --- Specification --------------------------------------------------------------------

  function TextOf(e: Envelope, raw: Bytes): TextEnvelope {
    TextEnvelope(e.header.flags, IdText(e.header.conv), IdText(e.header.senderAccount), IdText(e.header.senderDevice),
                 IdText(e.header.clientMsg), ToNumber(e.header.timestamp), TextEntries(e.recipients), e.nonce,
                 e.ciphertext, raw, AadLength(|e.recipients|))
  }

  function TextEntries(rs: seq<SealedRecipient>): (t: seq<TextSealed>)
    ensures |t| == |rs|
    ensures forall i :: 0 <= i < |rs| ==> t[i] == TextSealed(IdText(rs[i].account), rs[i].sealedKey)
  {
    seq(|rs|, i requires 0 <= i < |rs| => TextSealed(IdText(rs[i].account), rs[i].sealedKey))
  }

  /** The header as bytes; None when one of its identifiers is malformed. */
  function ReadHeader(h: TextHeader): Option<Header> {
    var conv, account := UuidToBytes(h.convId), UuidToBytes(h.senderAccount);
    var device, msg := UuidToBytes(h.senderDevice), UuidToBytes(h.clientMsgId);
    if conv.None? || account.None? || device.None? || msg.None? then None
    else Some(Header(LowByte(h.flags), conv.value, account.value, device.value, msg.value, Stamp(h.timestampMs)))
  }

  function ReadRecipient(t: TextRecipient): Option<Recipient> {
    match UuidToBytes(t.account)
    case None => None
    case Some(id) => Some(Recipient(id, t.encPub))
  }

  /** Seals to each recipient in turn and stops at the first malformed account or degenerate key. */
  function SealedToTexts(c: Primitives, conv: Id, rs: seq<TextRecipient>, r: Randomness)
    : (s: Result<seq<SealedRecipient>, EncryptError>)
    requires AeadLaw(c) && |r.ephemeral| >= |rs|
    ensures s.Ok? ==> |s.value| == |rs|
  {
    if rs == [] then Ok([])
    else
      var n := |rs| - 1;
      match SealedToTexts(c, conv, rs[..n], r)
      case Err(e) => Err(e)
      case Ok(done) =>
        match ReadRecipient(rs[n])
        case None => Err(BadUuid)
        case Some(rc) =>
          match Sealed(c, r.ephemeral[n], rc.encPub, conv, rc.account, r.key)
          case None => Err(DegenerateKey)
          case Some(box) => Ok(done + [SealedRecipient(rc.account, box)])
  }

  function WebEncrypted(c: Primitives, h: TextHeader, rs: seq<TextRecipient>, plaintext: Bytes, r: Randomness)
    : Result<Envelope, EncryptError>
    requires AeadLaw(c)
  {
    if |rs| < 1 || |rs| > MAX_RECIPIENTS then Err(WrongCount)
    else if |r.ephemeral| != |rs| then Err(WrongEphemerals)
    else if EnvelopeSize(|rs|, plaintext) > MAX_ENVELOPE_SIZE then Err(WontFit)
    else
      match ReadHeader(h)
      case None => Err(BadUuid)
      case Some(header) =>
        match SealedToTexts(c, header.conv, rs, r)
        case Err(e) => Err(e)
        case Ok(sealed) => Ok(Assembled(c, header, sealed, plaintext, r))
  }

  // --- The same bytes as the server's library -----------------------------------------------

  predicate Reads(rs: seq<TextRecipient>, ids: seq<Recipient>) {
    |rs| == |ids| && forall i :: 0 <= i < |rs| ==> ReadRecipient(rs[i]) == Some(ids[i])
  }

  lemma {:induction false} SealsAgree(c: Primitives, conv: Id, rs: seq<TextRecipient>, ids: seq<Recipient>,
                                      r: Randomness)
    requires AeadLaw(c) && |r.ephemeral| >= |rs| && Reads(rs, ids)
    ensures SealedToTexts(c, conv, rs, r) ==
            match SealedTo(c, conv, ids, r) case None => Err(DegenerateKey) case Some(s) => Ok(s)
  {
    if rs != [] {
      var n := |rs| - 1;
      SealsAgree(c, conv, rs[..n], ids[..n], r);
      hide Sealed;
      assert ReadRecipient(rs[n]) == Some(ids[n]);
    }
  }

  /** With identifiers the client can read, both libraries make the same envelope or fail the same way. */
  lemma WritersAgree(c: Primitives, h: TextHeader, header: Header, rs: seq<TextRecipient>, ids: seq<Recipient>,
                     plaintext: Bytes, r: Randomness)
    requires AeadLaw(c) && ReadHeader(h) == Some(header) && Reads(rs, ids)
    ensures WebEncrypted(c, h, rs, plaintext, r) == Encrypted(c, header, ids, plaintext, r)
  {
    if |r.ephemeral| == |rs| {
      SealsAgree(c, header.conv, rs, ids, r);
    }
    hide SealedTo, SealedToTexts, Assembled, ReadHeader;
  }

  /** Why recipient i cannot be sealed to, if it cannot. */
  function Trouble(c: Primitives, rs: seq<TextRecipient>, r: Randomness, i: nat): Option<EncryptError>
    requires |r.ephemeral| >= |rs| && i < |rs|
  {
    if UuidToBytes(rs[i].account).None? then Some(BadUuid)
    else if c.agree(r.ephemeral[i], rs[i].encPub).None? then Some(DegenerateKey)
    else None
  }

  predicate NoTrouble(c: Primitives, rs: seq<TextRecipient>, r: Randomness, n: nat)
    requires |r.ephemeral| >= |rs| && n <= |rs|
  {
    forall i: nat :: i < n ==> Trouble(c, rs, r, i).None?
  }

  /** Recipient i is the first in trouble. */
  predicate Stops(c: Primitives, rs: seq<TextRecipient>, r: Randomness, i: nat, error: EncryptError)
    requires |r.ephemeral| >= |rs|
  {
    i < |rs| && NoTrouble(c, rs, r, i) && Trouble(c, rs, r, i) == Some(error)
  }

  lemma OneMoreRecipient(c: Primitives, conv: Id, rs: seq<TextRecipient>, r: Randomness)
    requires AeadLaw(c) && |r.ephemeral| >= |rs| && rs != []
    ensures
      var n := |rs| - 1;
      var before, s, t := SealedToTexts(c, conv, rs[..n], r), SealedToTexts(c, conv, rs, r), Trouble(c, rs, r, n);
      && (before.Err? ==> s == Err(before.error))
      && (before.Ok? ==> if t.None? then s.Ok? else s == Err(t.value))
  {
    var n := |rs| - 1;
    if ReadRecipient(rs[n]).Some? {
      SealedIs(c, r.ephemeral[n], rs[n].encPub, conv, ReadRecipient(rs[n]).value.account, r.key);
    }
    hide Sealed, UuidToBytes;
  }

  lemma TroubleBefore(c: Primitives, rs: seq<TextRecipient>, r: Randomness, m: nat)
    requires |r.ephemeral| >= |rs| && m <= |rs|
    ensures forall i: nat :: i < m ==> Trouble(c, rs[..m], r, i) == Trouble(c, rs, r, i)
    ensures forall i: nat :: i <= m ==> NoTrouble(c, rs[..m], r, i) == NoTrouble(c, rs, r, i)
  {
    hide UuidToBytes;
  }

  /** The first recipient in trouble stops it, and says why. */
  lemma {:induction false} FirstTroubleStops(c: Primitives, conv: Id, rs: seq<TextRecipient>, r: Randomness)
    requires AeadLaw(c) && |r.ephemeral| >= |rs|
    ensures
      var s := SealedToTexts(c, conv, rs, r);
      && (s.Ok? <==> NoTrouble(c, rs, r, |rs|)) && (s.Err? ==> exists i: nat :: Stops(c, rs, r, i, s.error))
    decreases |rs|
  {
    hide *;
    if rs == [] {
      SealsNone(c, conv, r);
      NoneInTrouble(c, rs, r);
    } else {
      var n := |rs| - 1;
      FirstTroubleStops(c, conv, rs[..n], r);
      OneMoreRecipient(c, conv, rs, r);
      TroubleBefore(c, rs, r, n);
      OneMoreTrouble(c, rs, r, n);
      var before := SealedToTexts(c, conv, rs[..n], r);
      if before.Err? {
        var i: nat :| Stops(c, rs[..n], r, i, before.error);
        StopsLater(c, rs, r, n, i, before.error);
      }
    }
  }

  lemma NoneInTrouble(c: Primitives, rs: seq<TextRecipient>, r: Randomness)
    requires |r.ephemeral| >= |rs|
    ensures NoTrouble(c, rs, r, 0)
  {}

  lemma OneMoreTrouble(c: Primitives, rs: seq<TextRecipient>, r: Randomness, n: nat)
    requires |r.ephemeral| >= |rs| && n < |rs|
    ensures NoTrouble(c, rs, r, n + 1) <==> NoTrouble(c, rs, r, n) && Trouble(c, rs, r, n).None?
    ensures NoTrouble(c, rs, r, n) && Trouble(c, rs, r, n).Some? ==> Stops(c, rs, r, n, Trouble(c, rs, r, n).value)
  {
    hide Trouble;
  }

  lemma StopsLater(c: Primitives, rs: seq<TextRecipient>, r: Randomness, n: nat, i: nat, error: EncryptError)
    requires |r.ephemeral| >= |rs| && n < |rs| && Stops(c, rs[..n], r, i, error)
    ensures Stops(c, rs, r, i, error) && !NoTrouble(c, rs, r, n)
  {
    TroubleBefore(c, rs, r, n);
    hide Trouble;
  }

  /** What the client refuses, in every case: after the sizes its own header, then the first recipient in trouble. */
  lemma WebEncryptedExactly(c: Primitives, h: TextHeader, rs: seq<TextRecipient>, plaintext: Bytes, r: Randomness)
    requires AeadLaw(c)
    ensures
      var e := WebEncrypted(c, h, rs, plaintext, r);
      var counted := 1 <= |rs| <= 100;
      var matched := |r.ephemeral| == |rs|;
      var sized := counted && matched && 120 + 96 * |rs| + |plaintext| <= 65536;
      && (e == Err(WrongCount) <==> !counted) && (e == Err(WrongEphemerals) <==> counted && !matched)
      && (e == Err(WontFit) <==> counted && matched && !sized)
      && (sized && ReadHeader(h).None? ==> e == Err(BadUuid))
      && (e.Ok? <==> sized && ReadHeader(h).Some? && NoTrouble(c, rs, r, |rs|))
      && (sized && ReadHeader(h).Some? && e.Err? ==> exists i: nat :: Stops(c, rs, r, i, e.error))
  {
    if |r.ephemeral| == |rs| && ReadHeader(h).Some? {
      FirstTroubleStops(c, ReadHeader(h).value.conv, rs, r);
    }
    hide SealedToTexts, Assembled, ReadHeader, NoTrouble, Stops;
  }

  function HeaderText(h: Header): TextHeader {
    TextHeader(h.flags, IdText(h.conv), IdText(h.senderAccount), IdText(h.senderDevice), IdText(h.clientMsg),
               h.timestamp as real)
  }

  /** Every header is readable, in its own text; the timestamp needs to be a number the client can hold. */
  lemma HeaderReadsBack(h: Header)
    ensures ReadHeader(HeaderText(h)) == Some(h)
  {
    TextRoundTrip(h.conv);
    TextRoundTrip(h.senderAccount);
    TextRoundTrip(h.senderDevice);
    TextRoundTrip(h.clientMsg);
    StampReadsBack(h.timestamp);
    hide UuidToBytes, IdText, ParseID, Stamp;
  }

  lemma StampReadsBack(t: Uint64)
    ensures Stamp(t as real) == t
  {}

  // --- Writing -----------------------------------------------------------------------------

  method EncryptWith(c: Primitives, seed: Key, hdr: TextHeader, recipients: seq<TextRecipient>, plaintext: Bytes,
                     r: Randomness)
    returns (result: Result<SignedEnvelope, EncryptError>)
    requires AeadLaw(c)
    ensures match WebEncrypted(c, hdr, recipients, plaintext, r)
            case Err(e) => result == Err(e)
            case Ok(e) => result == Ok(SignedEnvelope(Serialised(e), c.sign(seed, SignedBytes(Serialised(e)))))
  {
    hide HeaderBytes, SealedToTexts, Entries, SignedBytes, Assembled, Serialised;
    var n := |recipients|;
    if n < 1 || n > MAX_RECIPIENTS {
      return Err(WrongCount);
    }
    if |r.ephemeral| != n {
      return Err(WrongEphemerals);
    }
    var size := EnvelopeSize(n, plaintext);
    if size > MAX_ENVELOPE_SIZE {
      return Err(WontFit);
    }
    var buf := new byte[size];
    var convId := UuidToBytes(hdr.convId);
    if convId.None? {
      return Err(BadUuid);
    }
    var written := PutHeader(buf, hdr, convId.value, n);
    if !written {
      return Err(BadUuid);
    }
    ghost var header := ReadHeader(hdr).value;
    hide ReadHeader, UuidToBytes;
    ghost var sealed;
    var error;
    error, sealed := PutRecipients(buf, convId.value, recipients, c, r);
    if error.Some? {
      return Err(error.value);
    }
    var off := FIXED_HEADER + RECIPIENT_ENTRY * n;
    assert buf[..off] == HeaderBytes(header, n) + Entries(sealed);
    PutSealed(buf, off, c, r, plaintext, header, sealed);
    result := Ok(SignedEnvelope(buf[..], c.sign(seed, SignedBytes(buf[..]))));
  }

  /** One entry: the account, and the key sealed to it. */
  method PutEntry(buf: array<byte>, start: nat, account: Id, sealedKey: SealedKey)
    requires start + 96 <= buf.Length
    modifies buf
    ensures buf[..start + 96] == old(buf[..start]) + account + sealedKey
  {
    var off := start;
    Put(buf, off, account);
    off := off + 16;
    Put(buf, off, sealedKey);
  }

  /** One entry a recipient, after the fixed header. */
  method PutRecipients(buf: array<byte>, convId: Id, recipients: seq<TextRecipient>, c: Primitives, r: Randomness)
    returns (error: Option<EncryptError>, ghost sealed: seq<SealedRecipient>)
    requires AeadLaw(c) && |r.ephemeral| >= |recipients|
    requires buf.Length >= FIXED_HEADER + RECIPIENT_ENTRY * |recipients|
    modifies buf
    ensures error.Some? ==> SealedToTexts(c, convId, recipients, r) == Err(error.value)
    ensures error.None? ==> SealedToTexts(c, convId, recipients, r) == Ok(sealed)
    ensures error.None? ==>
      buf[..FIXED_HEADER + RECIPIENT_ENTRY * |recipients|] == old(buf[..FIXED_HEADER]) + Entries(sealed)
  {
    hide Entries, Entry, SealedToTexts, Sealed, ReadRecipient, UuidToBytes, AeadLaw;
    ghost var head := buf[..FIXED_HEADER];
    var n := |recipients|;
    var off := FIXED_HEADER;
    sealed := [];
    assert recipients[..0] == [];
    SealsNone(c, convId, r);
    var i := 0;
    while i < n
      invariant 0 <= i <= n && |sealed| == i && off == 76 + 96 * i
      invariant SealedToTexts(c, convId, recipients[..i], r) == Ok(sealed)
      invariant buf[..off] == head + Entries(sealed)
    {
      SealsNext(c, convId, recipients, r, i, sealed);
      var account := UuidToBytes(recipients[i].account);
      if account.None? {
        ErrorStays(c, convId, recipients, r, i + 1);
        return Some(BadUuid), sealed;
      }
      var box := SealWith(c, r.ephemeral[i], recipients[i].encPub, convId, account.value, r.key);
      if box.None? {
        ErrorStays(c, convId, recipients, r, i + 1);
        return Some(DegenerateKey), sealed;
      }
      EntryJoins(buf[..off], head, sealed, SealedRecipient(account.value, box.value));
      PutEntry(buf, off, account.value, box.value);
      off := off + 96;
      sealed := sealed + [SealedRecipient(account.value, box.value)];
      i := i + 1;
    }
    assert recipients[..n] == recipients;
    error := None;
  }

  /** The nonce, the length and the ciphertext, which end exactly where the buffer does. */
  method PutSealed(buf: array<byte>, start: nat, c: Primitives, r: Randomness, plaintext: Bytes, ghost header: Header,
                   ghost sealed: seq<SealedRecipient>)
    requires AeadLaw(c) && buf.Length == start + NONCE_SIZE + 4 + |plaintext| + TAG_SIZE
    requires buf[..start] == HeaderBytes(header, |sealed|) + Entries(sealed)
    modifies buf
    ensures buf[..] == Serialised(Assembled(c, header, sealed, plaintext, r))
  {
    hide HeaderBytes, Entries, ToBE;
    var off := start;
    Put(buf, off, r.nonce);
    off := off + NONCE_SIZE;
    var aad := buf[..off];
    assert aad == Aad(Envelope(header, sealed, r.nonce, []));
    Put(buf, off, ToBE(|plaintext| + TAG_SIZE, 4));
    off := off + 4;
    var ct := c.seal(r.key, r.nonce, aad, plaintext);
    Put(buf, off, ct);
    assert off + |ct| == buf.Length;
    assert buf[..] == buf[..off + |ct|];
  }

  /** The fixed header; false when an identifier is malformed. */
  method PutHeader(buf: array<byte>, hdr: TextHeader, convId: Id, n: nat) returns (ok: bool)
    requires buf.Length >= FIXED_HEADER && UuidToBytes(hdr.convId) == Some(convId)
    modifies buf
    ensures ok <==> ReadHeader(hdr).Some?
    ensures ok ==> buf[..FIXED_HEADER] == HeaderBytes(ReadHeader(hdr).value, n) && ReadHeader(hdr).value.conv == convId
  {
    var off := 0;
    buf[off] := VERSION;
    off := off + 1;
    buf[off] := LowByte(hdr.flags);
    off := off + 1;
    assert buf[..off] == [VERSION as byte, LowByte(hdr.flags)];
    Put(buf, off, convId);
    off := off + 16;
    var account := UuidToBytes(hdr.senderAccount);
    if account.None? {
      return false;
    }
    Put(buf, off, account.value);
    off := off + 16;
    var device := UuidToBytes(hdr.senderDevice);
    if device.None? {
      return false;
    }
    Put(buf, off, device.value);
    off := off + 16;
    var msg := UuidToBytes(hdr.clientMsgId);
    if msg.None? {
      return false;
    }
    Put(buf, off, msg.value);
    off := off + 16;
    hide UuidToBytes, ToBE;
    Put(buf, off, ToBE(Stamp(hdr.timestampMs), 8));
    off := off + 8;
    Put(buf, off, ToBE(n, 2));
    off := off + 2;
    ok := true;
  }

  lemma SealsNone(c: Primitives, conv: Id, r: Randomness)
    requires AeadLaw(c)
    ensures SealedToTexts(c, conv, [], r) == Ok([]) && Entries([]) == []
  {}

  lemma SealsNext(c: Primitives, conv: Id, rs: seq<TextRecipient>, r: Randomness, i: nat, sealed: seq<SealedRecipient>)
    requires AeadLaw(c) && |r.ephemeral| >= |rs| && i < |rs| && SealedToTexts(c, conv, rs[..i], r) == Ok(sealed)
    ensures SealedToTexts(c, conv, rs[..i + 1], r) ==
            match UuidToBytes(rs[i].account)
            case None => Err(BadUuid)
            case Some(id) =>
              match Sealed(c, r.ephemeral[i], rs[i].encPub, conv, id, r.key)
              case None => Err(DegenerateKey)
              case Some(box) => Ok(sealed + [SealedRecipient(id, box)])
  {
    hide Sealed, UuidToBytes;
    assert rs[..i + 1][..i] == rs[..i];
  }

  lemma {:induction false} ErrorStays(c: Primitives, conv: Id, rs: seq<TextRecipient>, r: Randomness, i: nat)
    requires AeadLaw(c) && |r.ephemeral| >= |rs| && i <= |rs| && SealedToTexts(c, conv, rs[..i], r).Err?
    ensures SealedToTexts(c, conv, rs, r) == SealedToTexts(c, conv, rs[..i], r)
    decreases |rs|
  {
    if i < |rs| {
      assert rs[..|rs| - 1][..i] == rs[..i];
      ErrorStays(c, conv, rs[..|rs| - 1], r, i);
    } else {
      assert rs[..i] == rs;
    }
  }

  lemma EntryJoins(before: Bytes, head: Bytes, sealed: seq<SealedRecipient>, entry: SealedRecipient)
    requires before == head + Entries(sealed)
    ensures before + entry.account + entry.sealedKey == head + Entries(sealed + [entry])
  {
    EntriesLast(sealed, entry);
    hide Entries;
    assert Entry(entry) == entry.account + entry.sealedKey;
  }

  // --- Reading -----------------------------------------------------------------------------

  method Parse(env: Bytes) returns (result: Result<TextEnvelope, Error>)
    ensures match Parsed(env) case Err(e) => result == Err(e) case Ok(e) => result == Ok(TextOf(e, env))
  {
    hide IdText, ToNumber, FromBE, EntriesAt, TextEntries, Spacing, Pow256;
    if |env| > MAX_ENVELOPE_SIZE {
      return Err(TooLarge);
    }
    if |env| < MIN_ENVELOPE {
      return Err(Malformed);
    }
    if env[0] != VERSION {
      return Err(BadVersion);
    }
    var n := FromBE(env[74..76]);
    if n < 1 || n > MAX_RECIPIENTS {
      return Err(BadRecipients);
    }
    var off := FIXED_HEADER;
    if |env| < off + n * RECIPIENT_ENTRY + NONCE_SIZE + 4 + TAG_SIZE {
      return Err(Malformed);
    }
    var recipients := ParseEntries(env, n);
    off := off + RECIPIENT_ENTRY * n;
    var nonce := env[off..off + NONCE_SIZE];
    off := off + NONCE_SIZE;
    var aadLen := off;
    var ctLen := FromBE(env[off..off + 4]);
    off := off + 4;
    if ctLen < TAG_SIZE || |env| - off != ctLen {
      return Err(Malformed);
    }
    result := Ok(TextEnvelope(env[1], IdText(env[2..18]), IdText(env[18..34]), IdText(env[34..50]), IdText(env[50..66]),
                              ToNumber(FromBE(env[66..74])), recipients, nonce, env[off..], env, aadLen));
  }

  method ParseEntries(env: Bytes, n: nat) returns (recipients: seq<TextSealed>)
    requires |env| >= FIXED_HEADER + RECIPIENT_ENTRY * n
    ensures recipients == TextEntries(EntriesAt(env, n))
  {
    recipients := [];
    var off := FIXED_HEADER;
    var i := 0;
    hide IdText, TextEntries;
    while i < n
      invariant 0 <= i <= n && |recipients| == i && off == FIXED_HEADER + RECIPIENT_ENTRY * i
      invariant recipients == TextEntries(EntriesAt(env, i))
    {
      recipients := recipients + [TextSealed(IdText(env[off..off + 16]), env[off + 16..off + RECIPIENT_ENTRY])];
      off := off + RECIPIENT_ENTRY;
      i := i + 1;
    }
  }

  method IsRecipient(e: TextEnvelope, account: string) returns (yes: bool)
    ensures yes <==> exists i :: 0 <= i < |e.recipients| && e.recipients[i].account == account
  {
    var i := 0;
    while i < |e.recipients|
      invariant 0 <= i <= |e.recipients|
      invariant forall j :: 0 <= j < i ==> e.recipients[j].account != account
    {
      if e.recipients[i].account == account {
        return true;
      }
      i := i + 1;
    }
    yes := false;
  }

  /** The first entry under this very text. */
  function TextEntryFor(rs: seq<TextSealed>, account: string): (i: Option<nat>)
    ensures i.None? ==> forall j :: 0 <= j < |rs| ==> rs[j].account != account
    ensures i.Some? ==> i.value < |rs| && rs[i.value].account == account
                        && forall j :: 0 <= j < i.value ==> rs[j].account != account
  {
    if rs == [] then None
    else
      match TextEntryFor(rs[..|rs| - 1], account)
      case Some(i) => Some(i)
      case None => if rs[|rs| - 1].account == account then Some(|rs| - 1) else None
  }

  function WebDecrypted(c: Primitives, e: TextEnvelope, account: string, encPriv: Key): Result<Bytes, DecryptError>
    requires e.aadLen <= |e.raw|
  {
    match TextEntryFor(e.recipients, account)
    case None => Err(NotRecipient)
    case Some(i) =>
      var conv, id := UuidToBytes(e.convId), UuidToBytes(account);
      if conv.None? || id.None? then Err(BadId)
      else
        match Opened(c, encPriv, conv.value, id.value, e.recipients[i].sealedKey)
        case Err(_) => Err(Failed)
        case Ok(key) =>
          match c.unseal(key, e.nonce, e.raw[..e.aadLen], e.ciphertext)
          case None => Err(Failed)
          case Some(plaintext) => Ok(plaintext)
  }

  /** Whether entry i is the first under a text. */
  predicate IsFirstText(rs: seq<TextSealed>, account: string, i: int) {
    0 <= i < |rs| && rs[i].account == account && forall j :: 0 <= j < i ==> rs[j].account != account
  }

  /** What each answer of the client's decryption means, for an envelope however it was made. */
  lemma WebDecryptsExactly(c: Primitives, e: TextEnvelope, account: string, encPriv: Key)
    requires e.aadLen <= |e.raw|
    ensures
      var r := WebDecrypted(c, e, account, encPriv);
      var conv, id := UuidToBytes(e.convId), UuidToBytes(account);
      var listed := exists i :: 0 <= i < |e.recipients| && e.recipients[i].account == account;
      && (r == Err(NotRecipient) <==> !listed)
      && (r == Err(BadId) <==> listed && (conv.None? || id.None?))
      && (forall plaintext :: r == Ok(plaintext) <==>
            && conv.Some? && id.Some?
            && exists i, key :: IsFirstText(e.recipients, account, i)
                                && Opened(c, encPriv, conv.value, id.value, e.recipients[i].sealedKey) == Ok(key)
                                && c.unseal(key, e.nonce, e.raw[..e.aadLen], e.ciphertext) == Some(plaintext))
  {
    hide UuidToBytes, Opened, TextEntryFor;
    var first := TextEntryFor(e.recipients, account);
    if first.Some? {
      assert IsFirstText(e.recipients, account, first.value);
      assert forall i :: IsFirstText(e.recipients, account, i) ==> i == first.value;
    }
  }

  lemma ParsedHoldsAad(env: Bytes)
    requires Parsed(env).Ok?
    ensures AadLength(|Parsed(env).value.recipients|) <= |env|
  {
    hide EntriesAt, HeaderAt, FromBE;
  }

  /** A parsed envelope decrypts alike in both libraries, for the account of any text. */
  lemma DecryptersAgree(c: Primitives, env: Bytes, account: string, encPriv: Key)
    requires Parsed(env).Ok?
    ensures var e := Parsed(env).value;
            var id := UuidToBytes(account);
            && AadLength(|e.recipients|) <= |env|
            && WebDecrypted(c, TextOf(e, env), account, encPriv) ==
               if id.Some? && account == IdText(id.value)
               then Decrypted(c, e, env[..AadLength(|e.recipients|)], id.value, encPriv) else Err(NotRecipient)
  {
    hide Parsed, UuidToBytes, IdText, ParseID, Opened, ToNumber, TextEntries, EntryFor, TextEntryFor;
    var e := Parsed(env).value;
    ParsedHoldsAad(env);
    TextRoundTrip(e.header.conv);
    EntriesCorrespond(e.recipients, account);
    if UuidToBytes(account).Some? {
      TextRoundTrip(UuidToBytes(account).value);
    }
  }

  /** A text finds the entry of the identifier it is the text of, and no other. */
  lemma EntriesCorrespond(rs: seq<SealedRecipient>, account: string)
    ensures var id := UuidToBytes(account);
            TextEntryFor(TextEntries(rs), account)
            == if id.Some? && account == IdText(id.value) then EntryFor(rs, id.value) else None
  {
    var id := UuidToBytes(account);
    forall i | 0 <= i < |rs|
      ensures IdText(rs[i].account) == account <==>
              id.Some? && account == IdText(id.value) && rs[i].account == id.value
    {
      TextRoundTrip(rs[i].account);
    }
    hide UuidToBytes, IdText, TextEntries, EntryFor, TextEntryFor;
    var i, j := TextEntryFor(TextEntries(rs), account), if id.Some? then EntryFor(rs, id.value) else None;
    if i.Some? && j.Some? {
      assert i.value == j.value;
    }
  }

  method Decrypt(c: Primitives, e: TextEnvelope, account: string, encPriv: Key)
    returns (result: Result<Bytes, DecryptError>)
    requires e.aadLen <= |e.raw|
    ensures result == WebDecrypted(c, e, account, encPriv)
  {
    var i := 0;
    while i < |e.recipients| && e.recipients[i].account != account
      invariant 0 <= i <= |e.recipients|
      invariant forall j :: 0 <= j < i ==> e.recipients[j].account != account
    {
      i := i + 1;
    }
    if i == |e.recipients| {
      return Err(NotRecipient);
    }
    assert TextEntryFor(e.recipients, account) == Some(i);
    hide TextEntryFor, UuidToBytes, Opened;
    var conv := UuidToBytes(e.convId);
    var id := UuidToBytes(account);
    if conv.None? || id.None? {
      return Err(BadId);
    }
    var key := Open(c, encPriv, conv.value, id.value, e.recipients[i].sealedKey);
    if key.Err? {
      return Err(Failed);
    }
    var plaintext := c.unseal(key.value, e.nonce, e.raw[..e.aadLen], e.ciphertext);
    if plaintext.None? {
      return Err(Failed);
    }
    result := Ok(plaintext.value);
  }

  /** Both parsers accept the same strings, and every field but an unrepresentable timestamp reads the same. */
  lemma ParsersReadAlike(e: Envelope, raw: Bytes)
    ensures var t := TextOf(e, raw);
            && ParseID(t.convId) == Some(e.header.conv) && ParseID(t.senderAccount) == Some(e.header.senderAccount)
            && ParseID(t.senderDevice) == Some(e.header.senderDevice)
            && ParseID(t.clientMsgId) == Some(e.header.clientMsg)
            && t.flags == e.header.flags && t.nonce == e.nonce && t.ciphertext == e.ciphertext && t.raw == raw
            && |t.recipients| == |e.recipients|
            && (forall i :: 0 <= i < |e.recipients| ==>
                  && ParseID(t.recipients[i].account) == Some(e.recipients[i].account)
                  && t.recipients[i].sealedKey == e.recipients[i].sealedKey)
            && (t.timestampMs == e.header.timestamp <==> e.header.timestamp % Spacing(e.header.timestamp) == 0)
  {
    TextRoundTrip(e.header.conv);
    TextRoundTrip(e.header.senderAccount);
    TextRoundTrip(e.header.senderDevice);
    TextRoundTrip(e.header.clientMsg);
    forall i | 0 <= i < |e.recipients|
      ensures ParseID(IdText(e.recipients[i].account)) == Some(e.recipients[i].account)
    {
      TextRoundTrip(e.recipients[i].account);
    }
    ReadExactly(e.header.timestamp);
    hide ParseID, IdText, UuidToBytes, ToNumber, Spacing;
  }
}
