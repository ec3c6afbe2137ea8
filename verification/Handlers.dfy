/**
 The server's message handlers: what they check, what they store, and which
 connections they tell. HTTP, JSON, bots and logging are not part of this model.
 */
module Handlers {
  import opened Wrappers
  import opened Bytes
  import opened Ids
  import opened Crypto
  import opened ServerLog
  import ServerRuns
  import Wire
  import Envelopes
  import GoEnvelope
  import Database
  import H = Hub
  import ServerLaws

  const SIGNATURE_SIZE := 64

  /** The authenticated device. */
  datatype Principal = Principal(account: AccountId, device: string, signPub: Crypto.Key, isAdmin: bool)

  datatype SendError =
    | EnvelopeTooLarge | BadSignature | InvalidEnvelope | ConversationMismatch | SenderMismatch
    | Refused(why: StoreError)

  /** An ephemeral envelope is relayed only; others have a number, and may have had it before. */
  datatype SendResult = Relayed | Stored(at: nat, duplicate: bool)

  predicate IsEphemeral(e: Wire.Envelope) {
    e.header.flags % 2 == 1
  }

  /** The checks that need no store: an envelope of this conversation, signed by this device. */
  function Checked(c: Primitives, p: Principal, convId: ConvId, env: Bytes, sig: Bytes)
    : Result<Wire.Envelope, SendError>
  {
    if |env| > Wire.MAX_ENVELOPE_SIZE then Err(EnvelopeTooLarge)
    else if |sig| != SIGNATURE_SIZE then Err(BadSignature)
    else
      match Wire.Parsed(env)
      case Err(_) => Err(InvalidEnvelope)
      case Ok(e) =>
        if IdText(e.header.conv) != convId then Err(ConversationMismatch)
        else if IdText(e.header.senderAccount) != p.account || IdText(e.header.senderDevice) != p.device
        then Err(SenderMismatch)
        else if !c.verify(p.signPub, Envelopes.SignedBytes(env), sig) then Err(BadSignature)
        else Ok(e)
  }

  /** An envelope is ephemeral exactly when the lowest bit of its second byte is set. */
  lemma EphemeralIsTheLowBit(env: Bytes)
    requires Wire.Parsed(env).Ok?
    ensures |env| > 1 && (IsEphemeral(Wire.Parsed(env).value) <==> (env[1] as bv8) & 1 == 1)
  {
    Wire.ParsedParts(env);
    LowBit(env[1]);
    hide Wire.Parsed, Wire.EntriesAt, FromBE;
  }

  lemma LowBit(x: byte)
    ensures (x as bv8) & 1 == 1 <==> x % 2 == 1
  {}

  /** What is refused, each reason in turn, and what is accepted. */
  lemma CheckedExactly(c: Primitives, p: Principal, convId: ConvId, env: Bytes, sig: Bytes)
    ensures
      var r, parsed := Checked(c, p, convId, env, sig), Wire.Parsed(env);
      var shaped := |env| <= 65536 && |sig| == 64;
      var read := shaped && parsed.Ok?;
      var here := read && ParseID(convId) == Some(parsed.value.header.conv)
                  && convId == IdText(parsed.value.header.conv);
      var ours := here && p.account == IdText(parsed.value.header.senderAccount)
                  && p.device == IdText(parsed.value.header.senderDevice);
      var signed := c.verify(p.signPub, [109, 115, 103, 114, 45, 101, 110, 118, 45, 118, 49] + env, sig);
      && (r == Err(EnvelopeTooLarge) <==> |env| > 65536)
      && (r == Err(InvalidEnvelope) <==> shaped && !read)
      && (r == Err(ConversationMismatch) <==> read && !here)
      && (r == Err(SenderMismatch) <==> here && !ours)
      && (r == Err(BadSignature) <==> |env| <= 65536 && (|sig| != 64 || (ours && !signed)))
      && (r.Ok? <==> ours && signed) && (r.Ok? ==> parsed == Ok(r.value))
  {
    Envelopes.SignedBytesAre(env);
    if Wire.Parsed(env).Ok? { TextRoundTrip(Wire.Parsed(env).value.header.conv); }
    hide Wire.Parsed, IdText, ParseID, Envelopes.SignedBytes;
  }

  /**
   What is accepted is the serialised form of one envelope, under the conversation, the sender
   and the device inside it; and what was signed is eleven fixed bytes and exactly that form,
   so the signature stands for no other.
   */
  lemma AcceptedIsAuthentic(c: Primitives, p: Principal, convId: ConvId, env: Bytes, sig: Bytes)
    requires Checked(c, p, convId, env, sig).Ok?
    ensures
      var e := Checked(c, p, convId, env, sig).value;
      && Wire.Serialisable(e) && Wire.Serialised(e) == env
      && c.verify(p.signPub, [109, 115, 103, 114, 45, 101, 110, 118, 45, 118, 49] + Wire.Serialised(e), sig)
      && ParseID(convId) == Some(e.header.conv) && ParseID(p.account) == Some(e.header.senderAccount)
      && ParseID(p.device) == Some(e.header.senderDevice)
    ensures forall other: Bytes :: Envelopes.SignedBytes(other) == Envelopes.SignedBytes(env) ==> other == env
  {
    var e := Checked(c, p, convId, env, sig).value;
    CheckedExactly(c, p, convId, env, sig);
    Wire.ParsedSerialises(env);
    TextRoundTrip(e.header.conv);
    TextRoundTrip(e.header.senderAccount);
    TextRoundTrip(e.header.senderDevice);
    hide Checked, Wire.Parsed, Wire.Serialised, Wire.Serialisable, IdText, ParseID, Envelopes.SignedBytes;
    forall other: Bytes | Envelopes.SignedBytes(other) == Envelopes.SignedBytes(env)
      ensures other == env
    {
      Envelopes.SignedBytesDetermine(other, env);
    }
  }

  function AccountsOf(rs: seq<Wire.SealedRecipient>): (ids: seq<AccountId>)
    ensures |ids| == |rs| && forall i :: 0 <= i < |rs| ==> ids[i] == IdText(rs[i].account)
  {
    seq(|rs|, i requires 0 <= i < |rs| => IdText(rs[i].account))
  }

  function RowOf(e: Wire.Envelope, p: Principal, env: Bytes, sig: Bytes, now: Millis): Row {
    Row(p.account, p.device, IdText(e.header.clientMsg), env, sig, now, None, "")
  }

  /** The sender of an envelope is a member, and so is every account it has a key for. */
  predicate AmongMembers(t: Tables, convId: ConvId, p: Principal, e: Wire.Envelope) {
    && IsMember(t, convId, p.account)
    && forall i :: 0 <= i < |e.recipients| ==> IsMember(t, convId, IdText(e.recipients[i].account))
  }

  lemma SameMembers(t: Tables, c: ConvId, sender: AccountId, list: seq<AccountId>, once: seq<AccountId>)
    requires forall a :: a in once <==> a in list
    ensures ServerLaws.AllMembers(t, c, sender, once) <==> ServerLaws.AllMembers(t, c, sender, list)
  {
    hide IsMember;
    forall i | 0 <= i < |list| ensures list[i] in once {
      assert list[i] in list;
    }
    forall j | 0 <= j < |once| ensures once[j] in list {
      assert once[j] in once;
    }
  }

  /** The store lets an envelope through exactly when it stays among members. */
  lemma LetThroughExactly(t: Tables, convId: ConvId, p: Principal, e: Wire.Envelope)
    ensures
      var why := ServerLog.ValidateSend(t, convId, p.account, H.Distinct(AccountsOf(e.recipients)));
      && (why.None? <==> AmongMembers(t, convId, p, e))
      && (why == Some(NotMember) <==> !IsMember(t, convId, p.account))
      && (why == Some(BadRecipient) <==> IsMember(t, convId, p.account) && !AmongMembers(t, convId, p, e))
  {
    var accounts := AccountsOf(e.recipients);
    var once := H.Distinct(accounts);
    ServerLaws.ValidateSendExactly(t, convId, p.account, once);
    SameMembers(t, convId, p.account, accounts, once);
    hide IsMember, IdText, ServerLog.ValidateSend, AccountsOf, H.Distinct;
  }

  /**
   What an accepted send means, whichever way it went: it stays among members, the device signed
   exactly these bytes, only what has its lowest flag clear is stored, and what is newly stored is
   a row as it was sent.
   */
  ghost predicate SentFaithfully(c: Primitives, t: Tables, u: Tables, p: Principal, convId: ConvId,
                                 env: Bytes, sig: Bytes, now: Millis, r: SendResult)
  {
    && |env| > 1 && Wire.Parsed(env).Ok? && AmongMembers(t, convId, p, Wire.Parsed(env).value)
    && c.verify(p.signPub, [109, 115, 103, 114, 45, 101, 110, 118, 45, 118, 49] + env, sig)
    && (r.Relayed? <==> (env[1] as bv8) & 1 == 1)
    && (r.Relayed? || r.duplicate ==> u == t)
    && (r.Stored? && !r.duplicate ==>
          && u.messages.Keys == t.messages.Keys + {(convId, r.at)} && (convId, r.at) !in t.messages
          && u.messages[(convId, r.at)]
             == Row(p.account, p.device, IdText(Wire.Parsed(env).value.header.clientMsg), env, sig, now, None, ""))
  }

  lemma RelayedFaithfully(c: Primitives, t: Tables, p: Principal, convId: ConvId, env: Bytes, sig: Bytes, now: Millis)
    requires Checked(c, p, convId, env, sig).Ok? && IsEphemeral(Checked(c, p, convId, env, sig).value)
    requires var e := Checked(c, p, convId, env, sig).value;
             ServerLog.ValidateSend(t, convId, p.account, H.Distinct(AccountsOf(e.recipients))).None?
    ensures SentFaithfully(c, t, t, p, convId, env, sig, now, Relayed)
  {
    var e := Checked(c, p, convId, env, sig).value;
    CheckedExactly(c, p, convId, env, sig);
    EphemeralIsTheLowBit(env);
    LetThroughExactly(t, convId, p, e);
    hide Checked, Wire.Parsed, IdText, ParseID, AmongMembers, ServerLog.ValidateSend, AccountsOf, H.Distinct;
  }

  lemma StoredFaithfully(c: Primitives, t: Tables, p: Principal, convId: ConvId, env: Bytes, sig: Bytes, now: Millis)
    requires ServerRuns.TablesOk(t)
    requires Checked(c, p, convId, env, sig).Ok? && !IsEphemeral(Checked(c, p, convId, env, sig).value)
    requires var e := Checked(c, p, convId, env, sig).value;
             Append(t, convId, RowOf(e, p, env, sig, now), H.Distinct(AccountsOf(e.recipients))).1.Ok?
    ensures var e := Checked(c, p, convId, env, sig).value;
            var (u, x) := Append(t, convId, RowOf(e, p, env, sig, now), H.Distinct(AccountsOf(e.recipients)));
            SentFaithfully(c, t, u, p, convId, env, sig, now, Stored(x.value.at, x.value.duplicate))
  {
    var e := Checked(c, p, convId, env, sig).value;
    CheckedExactly(c, p, convId, env, sig);
    EphemeralIsTheLowBit(env);
    StoredAmong(t, convId, p, e, env, sig, now);
    hide Checked, Wire.Parsed, IdText, ParseID, AmongMembers, AccountsOf, H.Distinct, Append, ServerRuns.TablesOk;
  }

  lemma StoredAmong(t: Tables, convId: ConvId, p: Principal, e: Wire.Envelope, env: Bytes, sig: Bytes, now: Millis)
    requires ServerRuns.TablesOk(t)
    requires Append(t, convId, RowOf(e, p, env, sig, now), H.Distinct(AccountsOf(e.recipients))).1.Ok?
    ensures var (u, x) := Append(t, convId, RowOf(e, p, env, sig, now), H.Distinct(AccountsOf(e.recipients)));
            var k := (convId, x.value.at);
            && AmongMembers(t, convId, p, e) && (x.value.duplicate ==> u == t)
            && (!x.value.duplicate ==>
                  && u.messages.Keys == t.messages.Keys + {k} && k !in t.messages
                  && u.messages[k] == Row(p.account, p.device, IdText(e.header.clientMsg), env, sig, now, None, ""))
  {
    var row, once := RowOf(e, p, env, sig, now), H.Distinct(AccountsOf(e.recipients));
    LetThroughExactly(t, convId, p, e);
    ServerLaws.AppendExactly(t, convId, row, once);
    ServerLaws.ValidateSendExactly(t, convId, p.account, once);
    NextIsNew(t, convId);
    hide IdText, IsMember, AmongMembers, ServerLog.ValidateSend, AccountsOf, H.Distinct, Append,
         ServerLaws.AllMembers, ServerRuns.TablesOk;
  }

  lemma NextIsNew(t: Tables, c: ConvId)
    requires ServerRuns.TablesOk(t)
    ensures c in t.convs ==> (c, t.convs[c].lastSeq + 1) !in t.messages
  {}

  /** Each live connection of the accounts exactly once, and no other. */
  ghost predicate ReachesOnce(hub: H.Hub, t: Tables, c: ConvId, sent: multiset<H.Conn>)
    reads hub
  {
    forall k :: sent[k] == if k in hub.all && IsMember(t, c, k.account) then 1 else 0
  }

  lemma OnceEach(hub: H.Hub, t: Tables, c: ConvId, list: seq<AccountId>, sent: multiset<H.Conn>)
    requires forall a :: a in list <==> IsMember(t, c, a)
    requires forall i, j :: 0 <= i < j < |list| ==> list[i] != list[j]
    requires forall k :: sent[k] == if k in hub.all then H.Mentions(list, k.account) else 0
    ensures ReachesOnce(hub, t, c, sent)
  {
    forall k ensures sent[k] == if k in hub.all && IsMember(t, c, k.account) then 1 else 0 {
      H.MentionedOnce(list, k.account);
    }
  }

  /**
   Checks, stores or only relays an envelope, and tells every live connection of every
   member once. A repeated send stores nothing and tells nobody.
   */
  method SendEnvelope(c: Primitives, store: Database.Store, hub: H.Hub, p: Principal, convId: ConvId,
                      env: Bytes, sig: Bytes, now: Millis)
    returns (r: Result<SendResult, SendError>, sent: multiset<H.Conn>)
    requires store.Valid() && hub.Valid()
    modifies store
    ensures store.Valid()
    ensures match Checked(c, p, convId, env, sig)
            case Err(e) => r == Err(e) && store.Now() == old(store.Now()) && sent == multiset{}
            case Ok(e) =>
              var recipients := H.Distinct(AccountsOf(e.recipients));
              if IsEphemeral(e) then
                && store.Now() == old(store.Now())
                && (match ServerLog.ValidateSend(old(store.Now()), convId, p.account, recipients)
                    case Some(why) => r == Err(Refused(why)) && sent == multiset{}
                    case None => r == Ok(Relayed) && ReachesOnce(hub, old(store.Now()), convId, sent))
              else
                var (after, receipt) := Append(old(store.Now()), convId, RowOf(e, p, env, sig, now), recipients);
                && store.Now() == after
                && (match receipt
                    case Err(why) => r == Err(Refused(why)) && sent == multiset{}
                    case Ok(x) =>
                      && r == Ok(Stored(x.at, x.duplicate))
                      && (if x.duplicate then sent == multiset{} else ReachesOnce(hub, old(store.Now()), convId, sent)))
    ensures r.Ok? ==> SentFaithfully(c, old(store.Now()), store.Now(), p, convId, env, sig, now, r.value)
  {
    sent := multiset{};
    hide Append, ServerLog.ValidateSend, ServerRuns.TablesOk, H.Groups, SentFaithfully;
    if |env| > Wire.MAX_ENVELOPE_SIZE {
      return Err(EnvelopeTooLarge), sent;
    }
    if |sig| != SIGNATURE_SIZE {
      return Err(BadSignature), sent;
    }
    var parsed := GoEnvelope.Parse(env);
    if parsed.Err? {
      return Err(InvalidEnvelope), sent;
    }
    var e := parsed.value.envelope;
    hide Wire.Parsed;
    if IdText(e.header.conv) != convId {
      return Err(ConversationMismatch), sent;
    }
    if IdText(e.header.senderAccount) != p.account || IdText(e.header.senderDevice) != p.device {
      return Err(SenderMismatch), sent;
    }
    if !c.verify(p.signPub, Envelopes.SignedBytes(env), sig) {
      return Err(BadSignature), sent;
    }
    assert Checked(c, p, convId, env, sig) == Ok(e);
    hide Checked, IdText;
    ghost var t := store.Now();
    var recipients := H.DistinctRecipients(AccountsOf(e.recipients));
    if e.header.flags % 2 == 1 {
      var list, refusal := store.ValidateSend(convId, p.account, recipients);
      if refusal.Some? {
        return Err(Refused(refusal.value)), sent;
      }
      sent := hub.SendToAccounts(list);
      OnceEach(hub, t, convId, list, sent);
      RelayedFaithfully(c, t, p, convId, env, sig, now);
      return Ok(Relayed), sent;
    }
    var receipt, list := store.AppendMessage(convId, RowOf(e, p, env, sig, now), recipients);
    if receipt.Err? {
      return Err(Refused(receipt.error)), sent;
    }
    if !receipt.value.duplicate {
      sent := hub.SendToAccounts(list);
      OnceEach(hub, t, convId, list, sent);
    }
    StoredFaithfully(c, t, p, convId, env, sig, now);
    r := Ok(Stored(receipt.value.at, receipt.value.duplicate));
  }

  datatype DeleteError = NoSuchMessage | NotYours | Failed(why: StoreError)

  /** Deletes a message for everyone: its sender may, a member, and an administrator may. */
  method DeleteMessage(store: Database.Store, hub: H.Hub, p: Principal, convId: ConvId, at: int,
                       recordId: string, now: Millis)
    returns (r: Result<nat, DeleteError>, sent: multiset<H.Conn>)
    requires store.Valid() && hub.Valid()
    modifies store
    ensures store.Valid()
    ensures var t := old(store.Now());
            var visible := at > 0 && IsMessage(t, convId, at) && (p.isAdmin || IsMember(t, convId, p.account));
            if !visible then r == Err(NoSuchMessage) && store.Now() == t && sent == multiset{}
            else if !p.isAdmin && t.messages[(convId, at)].sender != p.account
            then r == Err(NotYours) && store.Now() == t && sent == multiset{}
            else
              var (after, rec) := Delete(t, convId, at, p.account, p.device, recordId, now);
              && store.Now() == after
              && (match rec
                  case Err(why) => r == Err(Failed(why)) && sent == multiset{}
                  case Ok(s) => r == Ok(s) && ReachesOnce(hub, after, convId, sent))
  {
    sent := multiset{};
    hide Delete, ServerRuns.TablesOk, H.Groups;
    if at <= 0 {
      return Err(NoSuchMessage), sent;
    }
    if !p.isAdmin && (convId, p.account) !in store.members {
      return Err(NoSuchMessage), sent;
    }
    var m := store.Message(convId, at);
    if m.Err? {
      return Err(NoSuchMessage), sent;
    }
    if m.value.sender != p.account && !p.isAdmin {
      return Err(NotYours), sent;
    }
    var rec := store.DeleteMessage(convId, at, p.account, p.device, recordId, now);
    if rec.Err? {
      return Err(Failed(rec.error)), sent;
    }
    var list := store.MemberAccountIDs(convId);
    sent := hub.SendToAccounts(list);
    OnceEach(hub, store.Now(), convId, list, sent);
    r := Ok(rec.value);
  }

  /**
   One page of a member's messages: the limit is clamped to 1..200, and one row more tells
   whether there is more. With it goes the number of the newest row.
   */
  method ListMessages(store: Database.Store, account: AccountId, convId: ConvId, after: int, limit: int)
    returns (r: Option<seq<(nat, Row)>>, hasMore: bool, lastSeq: nat)
    ensures r.Some? <==> (convId, account) in store.members && convId in store.convs
    ensures r.Some? ==> lastSeq == store.convs[convId].lastSeq
    ensures r.Some? ==>
              var wanted := Min(Max(limit, 1), 200);
              var joined := store.members[(convId, account)].joinedSeq;
              var all := MessagesAfter(store.Now(), convId, after, joined, wanted + 1);
              && |r.value| == Min(|all|, wanted) && (hasMore <==> |all| > wanted)
              && forall i :: 0 <= i < |r.value| ==>
                   && r.value[i].0 == all[i] && (convId, all[i]) in store.messages
                   && r.value[i].1 == store.messages[(convId, all[i])]
  {
    if (convId, account) !in store.members || convId !in store.convs {
      return None, false, 0;
    }
    var n: int := limit;
    if n < 1 {
      n := 1;
    }
    if n > 200 {
      n := 200;
    }
    hide MessagesAfter;
    var list := store.Messages(convId, after, store.members[(convId, account)].joinedSeq, n + 1);
    hasMore := |list| > n;
    if hasMore {
      list := list[..n];
    }
    r, lastSeq := Some(list), store.convs[convId].lastSeq;
  }
}
