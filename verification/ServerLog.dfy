/**
 The server's tables as values and each transaction as one step: conversations
 with their `last_seq`, members with their visibility window, and messages with
 the deletion records that replace them. `log` remembers every row ever
 inserted; no step reads it.
 */
module ServerLog {
  import opened Wrappers
  import Bytes

  type ConvId = string
  type AccountId = string
  type Millis = int

  datatype StoreError = NotFound | Conflict | NotMember | BadRecipient | ConvMismatch | Constraint

  datatype Role = Owner | Plain

  datatype Conversation = Conversation(directKey: Option<string>, createdBy: AccountId, lastSeq: nat, retention: nat)

  datatype Member = Member(role: Role, joinedSeq: int, readSeq: int)

  /** A message, or a deletion record when `deleted` names the row it replaced. */
  datatype Row = Row(
    sender: AccountId, device: string, clientId: string, env: Bytes.Bytes, sig: Bytes.Bytes, serverTs: Millis,
    deleted: Option<nat>, deletedSender: AccountId)

  type Key = (ConvId, nat)

  type Rows = map<Key, Row>

  datatype Tables = Tables(
    convs: map<ConvId, Conversation>,
    members: map<(ConvId, AccountId), Member>,
    messages: Rows,
    log: map<ConvId, seq<Row>>)

  const NO_TABLES := Tables(map[], map[], map[], map[])

  // --- Sending -------------------------------------------------------------------

  /** What AppendMessage reports: the sequence number, and whether the row was there before. */
  datatype Receipt = Receipt(at: nat, duplicate: bool)

  predicate IsMember(t: Tables, c: ConvId, a: AccountId) {
    (c, a) in t.members
  }

  predicate Sent(messages: Rows, k: Key, sender: AccountId, clientId: string) {
    k in messages && messages[k].sender == sender && messages[k].clientId == clientId
  }

  /** The surviving row of this sender with this client id. */
  ghost function FindSent(messages: Rows, sender: AccountId, clientId: string): (r: Option<Key>)
    ensures r.None? ==> forall k :: !Sent(messages, k, sender, clientId)
    ensures r.Some? ==> Sent(messages, r.value, sender, clientId)
  {
    if k: Key :| Sent(messages, k, sender, clientId) then Some(k) else None
  }

  function Insert(t: Tables, c: ConvId, row: Row): Tables
    requires c in t.convs && c in t.log
  {
    var at := t.convs[c].lastSeq + 1;
    t.(convs := t.convs[c := t.convs[c].(lastSeq := at)],
       messages := t.messages[(c, at) := row],
       log := t.log[c := t.log[c] + [row]])
  }

  ghost function ValidateSend(t: Tables, c: ConvId, sender: AccountId, recipients: seq<AccountId>): Option<StoreError> {
    if !IsMember(t, c, sender) then Some(NotMember)
    else if exists r :: r in recipients && !IsMember(t, c, r) then Some(BadRecipient)
    else None
  }

  ghost function Append(t: Tables, c: ConvId, row: Row, recipients: seq<AccountId>)
    : (Tables, Result<Receipt, StoreError>)
  {
    var refusal := ValidateSend(t, c, row.sender, recipients);
    if refusal.Some? then (t, Err(refusal.value))
    else
      match FindSent(t.messages, row.sender, row.clientId)
      case Some(k) => if k.0 != c then (t, Err(ConvMismatch)) else (t, Ok(Receipt(k.1, true)))
      case None =>
        if c !in t.convs || c !in t.log then (t, Err(NotFound))
        else (Insert(t, c, row.(deleted := None)), Ok(Receipt(t.convs[c].lastSeq + 1, false)))
  }

  // --- Deleting --------------------------------------------------------------------

  predicate IsMessage(t: Tables, c: ConvId, s: nat) {
    (c, s) in t.messages && t.messages[(c, s)].deleted.None?
  }

  function Record(t: Tables, c: ConvId, s: nat, actor: AccountId, device: string, recordId: string, now: Millis): Row
    requires IsMessage(t, c, s)
  {
    Row(actor, device, recordId, [], [], now, Some(s), t.messages[(c, s)].sender)
  }

  ghost function Delete(
    t: Tables, c: ConvId, s: nat, actor: AccountId, device: string, recordId: string, now: Millis)
    : (Tables, Result<nat, StoreError>)
  {
    if !IsMessage(t, c, s) then (t, Err(NotFound))
    else if c !in t.convs || c !in t.log then (t, Err(NotFound))
    else
      var rest := t.(messages := t.messages - {(c, s)});
      if FindSent(rest.messages, actor, recordId).Some? then (t, Err(Constraint))
      else (Insert(rest, c, Record(t, c, s, actor, device, recordId, now)), Ok(t.convs[c].lastSeq + 1))
  }

  // --- Reading ---------------------------------------------------------------------

  /** Up to `limit` rows of c numbered s .. last, in ascending order. */
  function Listing(messages: Rows, c: ConvId, s: nat, last: nat, limit: nat): seq<nat>
    decreases last + 1 - s
  {
    if s > last || limit == 0 then []
    else if (c, s) in messages then [s] + Listing(messages, c, s + 1, last, limit - 1)
    else Listing(messages, c, s + 1, last, limit)
  }

  /** The rows after max(after, minSeq), as the query returns them. */
  function MessagesAfter(t: Tables, c: ConvId, after: int, minSeq: int, limit: nat): seq<nat> {
    if c !in t.convs then [] else
      Listing(t.messages, c, Start(after, minSeq), t.convs[c].lastSeq, limit)
  }

  /** Rows are numbered from 1, so a start below that lists the same rows as 1. */
  function Start(after: int, minSeq: int): nat {
    Max(0, Max(after, minSeq)) + 1
  }

  // --- Conversations and members -----------------------------------------------------

  type Members = map<(ConvId, AccountId), Member>

  function Opened(t: Tables, c: ConvId, conv: Conversation, members: Members): Tables {
    t.(convs := t.convs[c := conv], members := members, log := t.log[c := []])
  }

  function Enter(members: Members, c: ConvId, a: AccountId, role: Role): Members {
    members[(c, a) := Member(role, 0, 0)]
  }

  /** Enters the creator as owner and everybody else named as a plain member; repeats change nothing. */
  function EnterGroup(members: Members, c: ConvId, creator: AccountId, others: seq<AccountId>): Members {
    if others == [] then Enter(members, c, creator, Owner)
    else
      var rest, a := EnterGroup(members, c, creator, others[..|others| - 1]), others[|others| - 1];
      if a == creator then rest else Enter(rest, c, a, Plain)
  }

  ghost function FindDirect(convs: map<ConvId, Conversation>, key: string): (r: Option<ConvId>)
    ensures r.None? ==> forall c :: c in convs ==> convs[c].directKey != Some(key)
    ensures r.Some? ==> r.value in convs && convs[r.value].directKey == Some(key)
  {
    if c :| c in convs && convs[c].directKey == Some(key) then Some(c) else None
  }

  /** `key` is the pair's key: it does not depend on who of the two asks. */
  ghost function CreateDirect(t: Tables, newId: ConvId, key: string, a: AccountId, b: AccountId)
    : (Tables, Result<(ConvId, bool), StoreError>)
  {
    match FindDirect(t.convs, key)
    case Some(c) => (t, Ok((c, false)))
    case None =>
      if newId in t.convs || a == b then (t, Err(Constraint))
      else (Opened(t, newId, Conversation(Some(key), a, 0, 0),
                   Enter(Enter(t.members, newId, a, Plain), newId, b, Plain)),
            Ok((newId, true)))
  }

  function CreateGroup(t: Tables, id: ConvId, creator: AccountId, members: seq<AccountId>)
    : (Tables, Result<(), StoreError>)
  {
    if id in t.convs then (t, Err(Constraint))
    else (Opened(t, id, Conversation(None, creator, 0, 0), EnterGroup(t.members, id, creator, members)), Ok(()))
  }

  function AddMember(t: Tables, c: ConvId, a: AccountId): (Tables, Result<(), StoreError>) {
    if c !in t.convs then (t, Err(NotFound))
    else if IsMember(t, c, a) then (t, Err(Conflict))
    else
      var n := t.convs[c].lastSeq;
      (t.(members := t.members[(c, a) := Member(Plain, n, n)]), Ok(()))
  }

  function RemoveMember(t: Tables, c: ConvId, a: AccountId): (Tables, Result<(), StoreError>) {
    if IsMember(t, c, a) then (t.(members := t.members - {(c, a)}), Ok(())) else (t, Err(NotFound))
  }

  function MarkRead(t: Tables, c: ConvId, a: AccountId, s: int): (Tables, Result<(), StoreError>) {
    if !IsMember(t, c, a) || c !in t.convs then (t, Err(NotFound))
    else
      var m := t.members[(c, a)];
      (t.(members := t.members[(c, a) := m.(readSeq := Max(m.readSeq, Min(s, t.convs[c].lastSeq)))]), Ok(()))
  }

  function SetRetention(t: Tables, c: ConvId, seconds: nat): (Tables, Result<(), StoreError>) {
    if c in t.convs then (t.(convs := t.convs[c := t.convs[c].(retention := seconds)]), Ok(())) else (t, Err(NotFound))
  }

  // --- Retention ---------------------------------------------------------------------

  /** The conversation's timer capped by the server-wide limit; 0 keeps messages for ever. */
  function EffectiveRetention(timer: nat, limit: int): nat {
    if limit > 0 && (timer == 0 || timer > limit) then limit else timer
  }

  predicate Expired(serverTs: Millis, timer: nat, limit: int, now: Millis) {
    var r := EffectiveRetention(timer, limit);
    r > 0 && serverTs < now - r * 1000
  }

  function Purge(t: Tables, now: Millis, limit: int): Tables {
    t.(messages := map k | k in t.messages
                   && !(k.0 in t.convs && Expired(t.messages[k].serverTs, t.convs[k.0].retention, limit, now))
                   :: t.messages[k])
  }

  // --- Runs --------------------------------------------------------------------------

  datatype Op =
    | OpDirect(newId: ConvId, key: string, a: AccountId, b: AccountId)
    | OpGroup(id: ConvId, creator: AccountId, others: seq<AccountId>)
    | OpAdd(c: ConvId, who: AccountId)
    | OpRemove(c: ConvId, who: AccountId)
    | OpRead(c: ConvId, who: AccountId, upTo: int)
    | OpRetention(c: ConvId, seconds: nat)
    | OpAppend(c: ConvId, row: Row, recipients: seq<AccountId>)
    | OpDelete(c: ConvId, s: nat, actor: AccountId, device: string, recordId: string, now: Millis)
    | OpPurge(now: Millis, limit: int)

  ghost function Do(t: Tables, op: Op): Tables {
    match op
    case OpDirect(id, key, a, b) => CreateDirect(t, id, key, a, b).0
    case OpGroup(id, creator, others) => CreateGroup(t, id, creator, others).0
    case OpAdd(c, a) => AddMember(t, c, a).0
    case OpRemove(c, a) => RemoveMember(t, c, a).0
    case OpRead(c, a, s) => MarkRead(t, c, a, s).0
    case OpRetention(c, seconds) => SetRetention(t, c, seconds).0
    case OpAppend(c, row, recipients) => Append(t, c, row, recipients).0
    case OpDelete(c, s, actor, device, recordId, now) => Delete(t, c, s, actor, device, recordId, now).0
    case OpPurge(now, limit) => Purge(t, now, limit)
  }

  ghost function Run(t: Tables, ops: seq<Op>): Tables
    decreases |ops|
  {
    if ops == [] then t else Run(Do(t, ops[0]), ops[1..])
  }
}
