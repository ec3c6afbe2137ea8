/** The envelope's wire format: what the serialiser can produce, and what the parser makes of any bytes. */
module Wire {
  import opened Wrappers
  import opened Bytes
  import opened Ids
  import opened Crypto

  const VERSION := 1
  const MAX_RECIPIENTS := 100
  const MAX_ENVELOPE_SIZE := 65536
  const FIXED_HEADER := 76
  const RECIPIENT_ENTRY := 96
  const NONCE_SIZE := 24
  const MIN_ENVELOPE := FIXED_HEADER + RECIPIENT_ENTRY + NONCE_SIZE + 4 + TAG_SIZE

  type Uint64 = x: int | 0 <= x < 0x1_0000_0000_0000_0000

  datatype Header = Header(flags: byte, conv: Id, senderAccount: Id, senderDevice: Id, clientMsg: Id, timestamp: Uint64)

  datatype SealedRecipient = SealedRecipient(account: Id, sealedKey: SealedKey)

  datatype Envelope = Envelope(header: Header, recipients: seq<SealedRecipient>, nonce: Nonce, ciphertext: Bytes)

  datatype Error = TooLarge | Malformed | BadVersion | BadRecipients

  // --- Serialised form -----------------------------------------------------------

  function HeaderBytes(h: Header, n: nat): (b: Bytes)
    ensures |b| == FIXED_HEADER
  {
    [VERSION as byte, h.flags] + h.conv + h.senderAccount + h.senderDevice + h.clientMsg
    + ToBE(h.timestamp, 8) + ToBE(n, 2)
  }

  function Entry(r: SealedRecipient): (b: Bytes)
    ensures |b| == RECIPIENT_ENTRY
  {
    r.account + r.sealedKey
  }

  function Entries(rs: seq<SealedRecipient>): (b: Bytes)
    ensures |b| == RECIPIENT_ENTRY * |rs|
  {
    if rs == [] then [] else Entries(rs[..|rs| - 1]) + Entry(rs[|rs| - 1])
  }

  /** The part the ciphertext authenticates. */
  function Aad(e: Envelope): Bytes {
    HeaderBytes(e.header, |e.recipients|) + Entries(e.recipients) + e.nonce
  }

  function Serialised(e: Envelope): Bytes {
    Aad(e) + ToBE(|e.ciphertext|, 4) + e.ciphertext
  }

  /** The envelopes that exist on the wire. */
  predicate Serialisable(e: Envelope) {
    && 1 <= |e.recipients| <= MAX_RECIPIENTS && |e.ciphertext| >= TAG_SIZE
    && |Serialised(e)| <= MAX_ENVELOPE_SIZE
  }

  // --- Parsing ---------------------------------------------------------------------

  function EntryAt(env: Bytes, off: nat): SealedRecipient
    requires off + RECIPIENT_ENTRY <= |env|
  {
    SealedRecipient(env[off..off + 16], env[off + 16..off + RECIPIENT_ENTRY])
  }

  function EntriesAt(env: Bytes, n: nat): (rs: seq<SealedRecipient>)
    requires FIXED_HEADER + RECIPIENT_ENTRY * n <= |env|
    ensures |rs| == n
  {
    if n == 0 then [] else EntriesAt(env, n - 1) + [EntryAt(env, FIXED_HEADER + RECIPIENT_ENTRY * (n - 1))]
  }

  function HeaderAt(env: Bytes): Header
    requires |env| >= FIXED_HEADER
  {
    Widths();
    Header(env[1], env[2..18], env[18..34], env[34..50], env[50..66], FromBE(env[66..74]))
  }

  function CountAt(env: Bytes): nat
    requires |env| >= FIXED_HEADER
  {
    FromBE(env[74..76])
  }

  /** Where the authenticated part ends in an envelope of n recipients. */
  function AadLength(n: nat): nat {
    FIXED_HEADER + RECIPIENT_ENTRY * n + NONCE_SIZE
  }

  function Parsed(env: Bytes): Result<Envelope, Error> {
    if |env| > MAX_ENVELOPE_SIZE then Err(TooLarge)
    else if |env| < MIN_ENVELOPE then Err(Malformed)
    else if env[0] != VERSION then Err(BadVersion)
    else
      var n := CountAt(env);
      if n < 1 || n > MAX_RECIPIENTS then Err(BadRecipients)
      else if |env| < AadLength(n) + 4 + TAG_SIZE then Err(Malformed)
      else
        var off := AadLength(n);
        var length := FromBE(env[off..off + 4]);
        if length < TAG_SIZE || |env| - (off + 4) != length then Err(Malformed)
        else Ok(Envelope(HeaderAt(env), EntriesAt(env, n), env[off - NONCE_SIZE..off], env[off + 4..]))
  }

  // --- The parser inverts the serialiser ------------------------------------------------

  lemma EntriesLast(rs: seq<SealedRecipient>, r: SealedRecipient)
    ensures Entries(rs + [r]) == Entries(rs) + Entry(r)
  {
    assert (rs + [r])[..|rs|] == rs;
  }

  lemma EntryRead(env: Bytes, off: nat)
    requires off + RECIPIENT_ENTRY <= |env|
    ensures Entry(EntryAt(env, off)) == env[off..off + RECIPIENT_ENTRY]
  {}

  lemma Adjacent(env: Bytes, i: nat, j: nat, k: nat)
    requires i <= j <= k <= |env|
    ensures env[i..j] + env[j..k] == env[i..k]
  {}

  lemma {:induction false} EntriesRead(env: Bytes, n: nat)
    requires FIXED_HEADER + RECIPIENT_ENTRY * n <= |env|
    ensures Entries(EntriesAt(env, n)) == env[FIXED_HEADER..FIXED_HEADER + RECIPIENT_ENTRY * n]
  {
    if n > 0 {
      var off := FIXED_HEADER + RECIPIENT_ENTRY * (n - 1);
      EntriesRead(env, n - 1);
      EntriesLast(EntriesAt(env, n - 1), EntryAt(env, off));
      EntryRead(env, off);
      hide Entries, EntryAt, Entry;
      Adjacent(env, FIXED_HEADER, off, off + RECIPIENT_ENTRY);
    }
  }

  lemma HeaderRead(env: Bytes)
    requires |env| >= FIXED_HEADER && env[0] == VERSION
    ensures HeaderBytes(HeaderAt(env), CountAt(env)) == env[..FIXED_HEADER]
  {
    WritesWhatWasRead(env[66..74]);
    WritesWhatWasRead(env[74..76]);
    hide ToBE, FromBE;
  }

  lemma NextPiece(env: Bytes, i: nat, j: nat)
    requires i <= j <= |env|
    ensures env[..i] + env[i..j] == env[..j]
  {}

  /** What a parsed envelope is made of. */
  lemma ParsedParts(env: Bytes)
    requires Parsed(env).Ok?
    ensures
      var n := CountAt(env);
      var off := AadLength(n);
      && 1 <= n <= MAX_RECIPIENTS && off + 4 + TAG_SIZE <= |env| <= MAX_ENVELOPE_SIZE && env[0] == VERSION
      && FromBE(env[off..off + 4]) == |env| - (off + 4)
      && Parsed(env).value
         == Envelope(HeaderAt(env), EntriesAt(env, n), env[off - NONCE_SIZE..off], env[off + 4..])
  {
    hide CountAt, HeaderAt, EntriesAt, FromBE;
  }

  lemma AadJoins(env: Bytes, n: nat)
    requires AadLength(n) <= |env| && env[0] == VERSION && n == CountAt(env)
    ensures
      var off := AadLength(n);
      HeaderBytes(HeaderAt(env), n) + Entries(EntriesAt(env, n)) + env[off - NONCE_SIZE..off] == env[..off]
  {
    HeaderRead(env);
    EntriesRead(env, n);
    hide HeaderBytes, HeaderAt, CountAt, Entries, EntriesAt;
    NextPiece(env, FIXED_HEADER, AadLength(n) - NONCE_SIZE);
    NextPiece(env, AadLength(n) - NONCE_SIZE, AadLength(n));
  }

  /** Whatever parses is an envelope the serialiser can produce, and serialises to the same bytes. */
  lemma ParsedSerialises(env: Bytes)
    requires Parsed(env).Ok?
    ensures Serialisable(Parsed(env).value) && Serialised(Parsed(env).value) == env
    ensures env[..AadLength(|Parsed(env).value.recipients|)] == Aad(Parsed(env).value)
  {
    hide HeaderBytes, HeaderAt, CountAt, Entries, EntriesAt, ToBE, FromBE, Pow256, Parsed;
    ParsedParts(env);
    var n := CountAt(env);
    var off := AadLength(n);
    AadJoins(env, n);
    WritesWhatWasRead(env[off..off + 4]);
    NextPiece(env, off, off + 4);
    NextPiece(env, off + 4, |env|);
    assert env[off + 4..|env|] == env[off + 4..] && env[..|env|] == env;
  }

  lemma Halves(a: Bytes, b: Bytes)
    ensures (a + b)[..|a|] == a && (a + b)[|a|..] == b
  {}

  lemma EntriesSplit(rs: seq<SealedRecipient>, n: nat)
    requires |rs| == n + 1
    ensures rs == rs[..n] + [rs[n]]
    ensures Entries(rs)[..RECIPIENT_ENTRY * n] == Entries(rs[..n])
    ensures Entries(rs)[RECIPIENT_ENTRY * n..] == Entry(rs[n])
  {
    hide Entry, Entries;
    assert rs == rs[..n] + [rs[n]];
    EntriesLast(rs[..n], rs[n]);
    Halves(Entries(rs[..n]), Entry(rs[n]));
  }

  lemma EntryWritten(env: Bytes, off: nat, r: SealedRecipient)
    requires off + RECIPIENT_ENTRY <= |env| && env[off..off + RECIPIENT_ENTRY] == Entry(r)
    ensures EntryAt(env, off) == r
  {
    var b := env[off..off + RECIPIENT_ENTRY];
    assert env[off..off + 16] == b[..16] && env[off + 16..off + RECIPIENT_ENTRY] == b[16..];
  }

  lemma SliceOfSlice(env: Bytes, i: nat, j: nat, k: nat)
    requires i <= j <= k <= |env|
    ensures env[i..k][..j - i] == env[i..j] && env[i..k][j - i..] == env[j..k]
  {}

  lemma EntriesAtLast(env: Bytes, n: nat)
    requires FIXED_HEADER + RECIPIENT_ENTRY * (n + 1) <= |env|
    ensures EntriesAt(env, n + 1) == EntriesAt(env, n) + [EntryAt(env, FIXED_HEADER + RECIPIENT_ENTRY * n)]
  {
    hide EntryAt;
  }

  lemma {:induction false} EntriesWritten(env: Bytes, rs: seq<SealedRecipient>)
    requires FIXED_HEADER + RECIPIENT_ENTRY * |rs| <= |env|
    requires env[FIXED_HEADER..FIXED_HEADER + RECIPIENT_ENTRY * |rs|] == Entries(rs)
    ensures EntriesAt(env, |rs|) == rs
  {
    if |rs| > 0 {
      hide *;
      var n := |rs| - 1;
      var off := FIXED_HEADER + RECIPIENT_ENTRY * n;
      SliceOfSlice(env, FIXED_HEADER, off, off + RECIPIENT_ENTRY);
      EntriesSplit(rs, n);
      EntriesWritten(env, rs[..n]);
      EntryWritten(env, off, rs[n]);
      EntriesAtLast(env, n);
    }
  }

  lemma HeaderWritten(env: Bytes, h: Header, n: nat)
    requires |env| >= FIXED_HEADER && env[..FIXED_HEADER] == HeaderBytes(h, n) && n <= MAX_RECIPIENTS
    ensures env[0] == VERSION && HeaderAt(env) == h && CountAt(env) == n
  {
    var b := HeaderBytes(h, n);
    Widths();
    ReadsWhatWasWritten(h.timestamp, 8);
    ReadsWhatWasWritten(n, 2);
    hide ToBE, FromBE;
    assert env[0] == b[0] && env[1] == b[1];
    assert env[2..18] == b[2..18] == h.conv;
    assert env[18..34] == b[18..34] == h.senderAccount;
    assert env[34..50] == b[34..50] == h.senderDevice;
    assert env[50..66] == b[50..66] == h.clientMsg;
    assert env[66..74] == b[66..74] == ToBE(h.timestamp, 8);
    assert env[74..76] == b[74..76] == ToBE(n, 2);
  }

  /** Where each part of a serialised envelope lies. */
  lemma SerialisedParts(e: Envelope)
    ensures var env, n := Serialised(e), |e.recipients|;
            var off := AadLength(n);
            && |env| == off + 4 + |e.ciphertext|
            && env[..FIXED_HEADER] == HeaderBytes(e.header, n)
            && env[FIXED_HEADER..FIXED_HEADER + RECIPIENT_ENTRY * n] == Entries(e.recipients)
            && env[off - NONCE_SIZE..off] == e.nonce
            && env[off..off + 4] == ToBE(|e.ciphertext|, 4) && env[off + 4..] == e.ciphertext
  {
    hide HeaderBytes, Entries, ToBE;
  }

  /** Every field of a serialised envelope is recovered. */
  lemma SerialisedParses(e: Envelope)
    requires Serialisable(e)
    ensures Parsed(Serialised(e)) == Ok(e)
  {
    var env := Serialised(e);
    var n := |e.recipients|;
    SerialisedParts(e);
    hide HeaderBytes, HeaderAt, CountAt, Entries, EntriesAt, ToBE, FromBE, Serialised, Aad, Parsed;
    HeaderWritten(env, e.header, n);
    EntriesWritten(env, e.recipients);
    assert FromBE(env[AadLength(n)..AadLength(n) + 4]) == |e.ciphertext| by {
      Widths();
      ReadsWhatWasWritten(|e.ciphertext|, 4);
    }
    hide Pow256;
    ParsedMeans(env, e);
  }

  lemma ParsedMeans(env: Bytes, e: Envelope)
    requires 1 <= |e.recipients| <= MAX_RECIPIENTS && |e.ciphertext| >= TAG_SIZE && |env| <= MAX_ENVELOPE_SIZE
    requires |env| == AadLength(|e.recipients|) + 4 + |e.ciphertext| && env[0] == VERSION
    requires HeaderAt(env) == e.header && CountAt(env) == |e.recipients|
    requires EntriesAt(env, |e.recipients|) == e.recipients
    requires var off := AadLength(|e.recipients|);
             && env[off - NONCE_SIZE..off] == e.nonce && FromBE(env[off..off + 4]) == |e.ciphertext|
             && env[off + 4..] == e.ciphertext
    ensures Parsed(env) == Ok(e)
  {
    hide HeaderAt, CountAt, EntriesAt, FromBE, Pow256;
  }

  /** A byte string parses exactly when some envelope serialises to it. */
  lemma ParsesExactlyTheSerialised(env: Bytes)
    ensures Parsed(env).Ok? <==> exists e :: Serialisable(e) && Serialised(e) == env
  {
    if Parsed(env).Ok? {
      ParsedSerialises(env);
    }
    if e :| Serialisable(e) && Serialised(e) == env {
      SerialisedParses(e);
    }
  }

  /** No two byte strings parse to one envelope, and no two envelopes serialise to one byte string. */
  lemma WireIsCanonical(a: Bytes, b: Bytes, d: Envelope, e: Envelope)
    ensures Parsed(a).Ok? && Parsed(a) == Parsed(b) ==> a == b
    ensures Serialisable(d) && Serialisable(e) && Serialised(d) == Serialised(e) ==> d == e
  {
    if Parsed(a).Ok? && Parsed(a) == Parsed(b) {
      ParsedSerialises(a);
      ParsedSerialises(b);
    }
    if Serialisable(d) && Serialisable(e) && Serialised(d) == Serialised(e) {
      SerialisedParses(d);
      SerialisedParses(e);
    }
  }

  // --- The layout, byte by byte -----------------------------------------------------------------

  /** The layout of an envelope: every field at its place, numbers in big-endian order. */
  lemma Layout(e: Envelope)
    ensures
      var b, h, n := Serialised(e), e.header, |e.recipients|;
      && |b| == 104 + 96 * n + |e.ciphertext|
      && b[0] == 1 && b[1] == h.flags && b[2..18] == h.conv && b[18..34] == h.senderAccount
      && b[34..50] == h.senderDevice && b[50..66] == h.clientMsg
      && IsBigEndian(b[66..74], h.timestamp) && IsBigEndian(b[74..76], n)
      && b[76 + 96 * n..100 + 96 * n] == e.nonce
      && IsBigEndian(b[100 + 96 * n..104 + 96 * n], |e.ciphertext|)
      && b[104 + 96 * n..] == e.ciphertext
  {
    var b, n := Serialised(e), |e.recipients|;
    SerialisedParts(e);
    HeaderLayout(b, e.header, n);
    WritesBigEndian(|e.ciphertext|, 4);
    hide HeaderBytes, Entries, Serialised, ToBE, IsBigEndian;
  }

  lemma HeaderLayout(b: Bytes, h: Header, n: nat)
    requires |b| >= 76 && b[..76] == HeaderBytes(h, n)
    ensures b[0] == 1 && b[1] == h.flags && b[2..18] == h.conv && b[18..34] == h.senderAccount
    ensures b[34..50] == h.senderDevice && b[50..66] == h.clientMsg
    ensures IsBigEndian(b[66..74], h.timestamp) && IsBigEndian(b[74..76], n)
  {
    var front := HeaderBytes(h, n);
    WritesBigEndian(h.timestamp, 8);
    WritesBigEndian(n, 2);
    hide ToBE, IsBigEndian;
    assert b[0] == front[0] && b[1] == front[1];
    assert b[2..18] == front[2..18] && b[18..34] == front[18..34] && b[34..50] == front[34..50];
    assert b[50..66] == front[50..66] && b[66..74] == front[66..74] && b[74..76] == front[74..76];
    assert front[66..74] == ToBE(h.timestamp, 8) && front[74..76] == ToBE(n, 2);
  }

  /** The entries follow the header, account first. */
  lemma EntryLayout(e: Envelope, i: nat)
    requires i < |e.recipients|
    ensures
      var b := Serialised(e);
      && |b| >= 76 + 96 * |e.recipients|
      && b[76 + 96 * i..92 + 96 * i] == e.recipients[i].account
      && b[92 + 96 * i..172 + 96 * i] == e.recipients[i].sealedKey
  {
    var b, n := Serialised(e), |e.recipients|;
    SerialisedParts(e);
    EntriesWritten(b, e.recipients);
    EntriesAtIs(b, n, i);
    hide Serialised, HeaderBytes, Entries, EntriesAt, ToBE;
  }

  lemma {:induction false} EntriesAtIs(env: Bytes, n: nat, i: nat)
    requires i < n && FIXED_HEADER + RECIPIENT_ENTRY * n <= |env|
    ensures EntriesAt(env, n)[i] == SealedRecipient(env[76 + 96 * i..92 + 96 * i], env[92 + 96 * i..172 + 96 * i])
    decreases n
  {
    if i < n - 1 { EntriesAtIs(env, n - 1, i); }
  }

  /** What a byte string is refused for, each error in turn; otherwise it parses. */
  lemma ParsesExactly(env: Bytes)
    ensures
      var p := Parsed(env);
      var sized := 216 <= |env| <= 65536;
      var ours := sized && env[0] == 1;
      var n := if ours then FromBE(env[74..76]) else 0;
      var roomy := 1 <= n <= 100 && |env| >= 120 + 96 * n;
      && (p == Err(TooLarge) <==> |env| > 65536)
      && (p == Err(BadVersion) <==> sized && !ours)
      && (p == Err(BadRecipients) <==> ours && !(1 <= n <= 100))
      && (p.Ok? <==> roomy && FromBE(env[100 + 96 * n..104 + 96 * n]) == |env| - 104 - 96 * n)
  {
    hide FromBE, HeaderAt, EntriesAt, Pow256;
    if |env| >= 76 { assert CountAt(env) == FromBE(env[74..76]); }
  }

  /** A number is read as the bytes stand, most significant first. */
  lemma NumbersRead(b: Bytes)
    ensures IsBigEndian(b, FromBE(b))
  {
    WritesWhatWasRead(b);
    WritesBigEndian(FromBE(b), |b|);
  }
}
