/**
 What every run of the server keeps: sequence numbers without gaps or reuse,
 deletion records that point backwards at rows gone for good, one surviving
 row per sender and client id, and a visibility window for every member.
 */
module ServerRuns {
  import opened Wrappers
  import opened ServerLog

  // --- The invariant -----------------------------------------------------------------

  /** `last_seq` counts the rows ever inserted. */
  ghost predicate Numbered(t: Tables) {
    t.log.Keys == t.convs.Keys && forall c :: c in t.convs ==> |t.log[c]| == t.convs[c].lastSeq
  }

  /** A surviving row is the one that was inserted under its number. */
  ghost predicate RowsFromLog(t: Tables) {
    forall k: Key :: k in t.messages ==>
      k.0 in t.log && 0 < k.1 <= |t.log[k.0]| && t.messages[k] == t.log[k.0][k.1 - 1]
  }

  /** Row i + 1 of c, if a record, names a smaller number: a message that is gone. */
  ghost predicate RecordPointsBack(t: Tables, c: ConvId, i: nat)
    requires c in t.log && i < |t.log[c]|
  {
    var d := t.log[c][i].deleted;
    d.Some? ==> 0 < d.value <= i && t.log[c][d.value - 1].deleted.None? && (c, d.value) !in t.messages
  }

  ghost predicate RecordsPointBack(t: Tables) {
    forall c, i: nat :: c in t.log && i < |t.log[c]| ==> RecordPointsBack(t, c, i)
  }

  ghost predicate SentOnce(messages: Rows) {
    forall k, l | k in messages && l in messages ::
      messages[k].sender == messages[l].sender && messages[k].clientId == messages[l].clientId ==> k == l
  }

  ghost predicate Windows(t: Tables) {
    forall m :: m in t.members ==>
      m.0 in t.convs && 0 <= t.members[m].joinedSeq <= t.members[m].readSeq <= t.convs[m.0].lastSeq
  }

  /** Two accounts share one direct conversation at most. */
  ghost predicate DirectOnce(convs: map<ConvId, Conversation>) {
    forall c, d | c in convs && d in convs ::
      convs[c].directKey.Some? && convs[c].directKey == convs[d].directKey ==> c == d
  }

  ghost predicate TablesOk(t: Tables) {
    DirectOnce(t.convs) && Numbered(t) && RowsFromLog(t) && RecordsPointBack(t) && SentOnce(t.messages) && Windows(t)
  }

  /** The log only grows, and a row that is gone stays gone. */
  ghost predicate Grows(t: Tables, u: Tables) {
    && (forall c :: c in t.log ==> c in u.log && t.log[c] <= u.log[c])
    && (forall c, s: nat :: c in t.log && s <= |t.log[c]| && (c, s) !in t.messages ==> (c, s) !in u.messages)
  }

  // --- Every step keeps it -------------------------------------------------------------

  lemma InsertKeepsRecords(t: Tables, c: ConvId, row: Row)
    requires Numbered(t) && RowsFromLog(t) && RecordsPointBack(t) && c in t.convs
    requires row.deleted.Some? ==>
      0 < row.deleted.value <= |t.log[c]| && t.log[c][row.deleted.value - 1].deleted.None?
      && (c, row.deleted.value) !in t.messages
    ensures RecordsPointBack(Insert(t, c, row))
  {
    var u := Insert(t, c, row);
    forall d, i: nat | d in u.log && i < |u.log[d]|
      ensures RecordPointsBack(u, d, i)
    {
      if d != c || i < |t.log[c]| { assert RecordPointsBack(t, d, i); }
    }
  }

  lemma InsertKeepsSent(t: Tables, c: ConvId, row: Row)
    requires SentOnce(t.messages) && c in t.convs && c in t.log
    requires forall k :: !Sent(t.messages, k, row.sender, row.clientId)
    ensures SentOnce(Insert(t, c, row).messages)
  {
    var rows := Insert(t, c, row).messages;
    forall k, l | k in rows && l in rows
      && rows[k].sender == rows[l].sender && rows[k].clientId == rows[l].clientId
      ensures k == l
    {
      assert !Sent(t.messages, k, row.sender, row.clientId) && !Sent(t.messages, l, row.sender, row.clientId);
    }
  }

  lemma InsertKeepsNumbers(t: Tables, c: ConvId, row: Row)
    requires DirectOnce(t.convs) && Numbered(t) && c in t.convs
    ensures DirectOnce(Insert(t, c, row).convs) && Numbered(Insert(t, c, row))
  {}

  lemma InsertKeepsRows(t: Tables, c: ConvId, row: Row)
    requires Numbered(t) && RowsFromLog(t) && c in t.convs
    ensures RowsFromLog(Insert(t, c, row))
  {}

  lemma InsertKeepsWindows(t: Tables, c: ConvId, row: Row)
    requires Numbered(t) && Windows(t) && c in t.convs
    ensures Windows(Insert(t, c, row))
  {}

  lemma InsertGrows(t: Tables, c: ConvId, row: Row)
    requires Numbered(t) && c in t.convs
    ensures Grows(t, Insert(t, c, row))
  {}

  lemma InsertKeeps(t: Tables, c: ConvId, row: Row)
    requires TablesOk(t) && c in t.convs
    requires forall k :: !Sent(t.messages, k, row.sender, row.clientId)
    requires row.deleted.Some? ==>
      0 < row.deleted.value <= |t.log[c]| && t.log[c][row.deleted.value - 1].deleted.None?
      && (c, row.deleted.value) !in t.messages
    ensures TablesOk(Insert(t, c, row)) && Grows(t, Insert(t, c, row))
  {
    InsertKeepsRecords(t, c, row);
    InsertKeepsSent(t, c, row);
    InsertKeepsNumbers(t, c, row);
    InsertKeepsRows(t, c, row);
    InsertKeepsWindows(t, c, row);
    InsertGrows(t, c, row);
  }

  lemma AppendKeeps(t: Tables, c: ConvId, row: Row, recipients: seq<AccountId>)
    requires TablesOk(t)
    ensures TablesOk(Append(t, c, row, recipients).0) && Grows(t, Append(t, c, row, recipients).0)
  {
    if ValidateSend(t, c, row.sender, recipients).None? && FindSent(t.messages, row.sender, row.clientId).None? {
      InsertKeeps(t, c, row.(deleted := None));
    }
  }

  lemma RemovingKeeps(t: Tables, gone: set<Key>)
    requires TablesOk(t)
    ensures TablesOk(t.(messages := t.messages - gone)) && Grows(t, t.(messages := t.messages - gone))
  {
    var u := t.(messages := t.messages - gone);
    forall c, i: nat | c in u.log && i < |u.log[c]|
      ensures RecordPointsBack(u, c, i)
    {
      assert RecordPointsBack(t, c, i);
    }
  }

  lemma DeleteKeeps(t: Tables, c: ConvId, s: nat, actor: AccountId, device: string, recordId: string, now: Millis)
    requires TablesOk(t)
    ensures
      var u := Delete(t, c, s, actor, device, recordId, now).0;
      TablesOk(u) && Grows(t, u)
  {
    var rest := t.(messages := t.messages - {(c, s)});
    if IsMessage(t, c, s) && FindSent(rest.messages, actor, recordId).None? {
      RemovingKeeps(t, {(c, s)});
      InsertKeeps(rest, c, Record(t, c, s, actor, device, recordId, now));
    }
  }

  lemma PurgeKeeps(t: Tables, now: Millis, limit: int)
    requires TablesOk(t)
    ensures TablesOk(Purge(t, now, limit)) && Grows(t, Purge(t, now, limit))
  {
    var u := Purge(t, now, limit);
    RemovingKeeps(t, t.messages.Keys - u.messages.Keys);
    assert t.messages - (t.messages.Keys - u.messages.Keys) == u.messages;
  }

  /** Joining at 0 fits any conversation. */
  lemma EnterKeepsWindows(t: Tables, c: ConvId, a: AccountId, role: Role)
    requires Windows(t) && c in t.convs
    ensures Windows(t.(members := Enter(t.members, c, a, role)))
  {}

  lemma {:induction false} EnterGroupKeepsWindows(t: Tables, c: ConvId, creator: AccountId, others: seq<AccountId>)
    requires Windows(t) && c in t.convs
    ensures Windows(t.(members := EnterGroup(t.members, c, creator, others)))
    decreases |others|
  {
    if others == [] {
      EnterKeepsWindows(t, c, creator, Owner);
    } else {
      var rest, a := others[..|others| - 1], others[|others| - 1];
      EnterGroupKeepsWindows(t, c, creator, rest);
      EnterKeepsWindows(t.(members := EnterGroup(t.members, c, creator, rest)), c, a, Plain);
    }
  }

  /** A new group has exactly the accounts named, and one owner. */
  lemma {:induction false} GroupHasItsMembers(
    members: Members, c: ConvId, creator: AccountId, others: seq<AccountId>, k: (ConvId, AccountId))
    ensures
      var all := EnterGroup(members, c, creator, others);
      && (k in all <==> k in members || (k.0 == c && (k.1 == creator || k.1 in others)))
      && (k in all && k.0 == c && (k.1 == creator || k.1 in others) ==>
            all[k] == Member(if k.1 == creator then Owner else Plain, 0, 0))
      && (k in all && !(k.0 == c && (k.1 == creator || k.1 in others)) ==> all[k] == members[k])
    decreases |others|
  {
    if others != [] { GroupHasItsMembers(members, c, creator, others[..|others| - 1], k); }
  }

  lemma MembersKeep(t: Tables, members: map<(ConvId, AccountId), Member>)
    requires TablesOk(t) && Windows(t.(members := members))
    ensures TablesOk(t.(members := members)) && Grows(t, t.(members := members))
  {
    var u := t.(members := members);
    forall c, i: nat | c in u.log && i < |u.log[c]|
      ensures RecordPointsBack(u, c, i)
    {
      assert RecordPointsBack(t, c, i);
    }
  }

  lemma OpenLogKeeps(t: Tables, c: ConvId, conv: Conversation)
    requires TablesOk(t) && c !in t.convs && conv.lastSeq == 0 && DirectOnce(t.convs[c := conv])
    ensures TablesOk(Opened(t, c, conv, t.members)) && Grows(t, Opened(t, c, conv, t.members))
  {
    var u := Opened(t, c, conv, t.members);
    forall d, i: nat | d in u.log && i < |u.log[d]|
      ensures RecordPointsBack(u, d, i)
    {
      assert d in t.log && RecordPointsBack(t, d, i);
    }
  }

  lemma RetentionKeeps(t: Tables, c: ConvId, seconds: nat)
    requires TablesOk(t)
    ensures TablesOk(SetRetention(t, c, seconds).0) && Grows(t, SetRetention(t, c, seconds).0)
  {
    var u := SetRetention(t, c, seconds).0;
    forall d, i: nat | d in u.log && i < |u.log[d]|
      ensures RecordPointsBack(u, d, i)
    {
      assert RecordPointsBack(t, d, i);
    }
  }

  lemma AddKeeps(t: Tables, c: ConvId, a: AccountId)
    requires TablesOk(t)
    ensures TablesOk(AddMember(t, c, a).0) && Grows(t, AddMember(t, c, a).0)
  {
    MembersKeep(t, AddMember(t, c, a).0.members);
  }

  lemma RemoveKeeps(t: Tables, c: ConvId, a: AccountId)
    requires TablesOk(t)
    ensures TablesOk(RemoveMember(t, c, a).0) && Grows(t, RemoveMember(t, c, a).0)
  {
    MembersKeep(t, RemoveMember(t, c, a).0.members);
  }

  lemma ReadKeeps(t: Tables, c: ConvId, a: AccountId, s: int)
    requires TablesOk(t)
    ensures TablesOk(MarkRead(t, c, a, s).0) && Grows(t, MarkRead(t, c, a, s).0)
  {
    MembersKeep(t, MarkRead(t, c, a, s).0.members);
  }

  lemma CreateDirectKeeps(t: Tables, id: ConvId, key: string, a: AccountId, b: AccountId)
    requires TablesOk(t)
    ensures TablesOk(CreateDirect(t, id, key, a, b).0) && Grows(t, CreateDirect(t, id, key, a, b).0)
  {
    if FindDirect(t.convs, key).None? && id !in t.convs && a != b {
      var conv := Conversation(Some(key), a, 0, 0);
      OpenLogKeeps(t, id, conv);
      var u := Opened(t, id, conv, t.members);
      EnterKeepsWindows(u, id, a, Plain);
      EnterKeepsWindows(u.(members := Enter(u.members, id, a, Plain)), id, b, Plain);
      MembersKeep(u, Enter(Enter(t.members, id, a, Plain), id, b, Plain));
    }
  }

  lemma CreateGroupKeeps(t: Tables, id: ConvId, creator: AccountId, others: seq<AccountId>)
    requires TablesOk(t)
    ensures TablesOk(CreateGroup(t, id, creator, others).0) && Grows(t, CreateGroup(t, id, creator, others).0)
  {
    if id !in t.convs {
      var conv := Conversation(None, creator, 0, 0);
      OpenLogKeeps(t, id, conv);
      EnterGroupKeepsWindows(Opened(t, id, conv, t.members), id, creator, others);
      MembersKeep(Opened(t, id, conv, t.members), EnterGroup(t.members, id, creator, others));
    }
  }

  lemma DoKeeps(t: Tables, op: Op)
    requires TablesOk(t)
    ensures TablesOk(Do(t, op)) && Grows(t, Do(t, op))
  {
    hide TablesOk, Grows, CreateDirect, CreateGroup, AddMember, RemoveMember, MarkRead, SetRetention;
    hide Append, Delete, Purge;
    match op
    case OpDirect(id, key, a, b) => CreateDirectKeeps(t, id, key, a, b);
    case OpGroup(id, creator, others) => CreateGroupKeeps(t, id, creator, others);
    case OpRetention(c, seconds) => RetentionKeeps(t, c, seconds);
    case OpAppend(c, row, recipients) => AppendKeeps(t, c, row, recipients);
    case OpDelete(c, s, actor, device, recordId, now) => DeleteKeeps(t, c, s, actor, device, recordId, now);
    case OpPurge(now, limit) => PurgeKeeps(t, now, limit);
    case OpAdd(c, a) => AddKeeps(t, c, a);
    case OpRemove(c, a) => RemoveKeeps(t, c, a);
    case OpRead(c, a, s) => ReadKeeps(t, c, a, s);
  }

  // --- Log safety over every run ---------------------------------------------------------

  lemma {:induction false} RunKeeps(t: Tables, ops: seq<Op>)
    requires TablesOk(t)
    ensures TablesOk(Run(t, ops)) && Grows(t, Run(t, ops))
    decreases |ops|
  {
    if ops != [] {
      DoKeeps(t, ops[0]);
      RunKeeps(Do(t, ops[0]), ops[1..]);
    }
  }

  lemma NothingIsOk()
    ensures TablesOk(NO_TABLES)
  {}

  /** A number names one row for ever: whatever survives under it later is what was inserted first. */
  lemma NumbersAreNotReused(t: Tables, ops: seq<Op>, c: ConvId, s: nat)
    requires TablesOk(t) && c in t.log && 0 < s <= |t.log[c]|
    ensures
      var u := Run(t, ops);
      && c in u.convs && t.convs[c].lastSeq <= u.convs[c].lastSeq
      && ((c, s) in u.messages ==> (c, s) in t.messages && u.messages[(c, s)] == t.messages[(c, s)])
  {
    RunKeeps(t, ops);
    var u := Run(t, ops);
    assert t.log[c][s - 1] == u.log[c][s - 1];
  }

  // --- Exactly-once send -------------------------------------------------------------------

  /**
   Sending again while the first row survives changes nothing and reports that
   row; a row counts as new exactly when no surviving row has its sender and
   client id.
   */
  lemma SendIsIdempotent(t: Tables, c: ConvId, row: Row, recipients: seq<AccountId>, k: Key)
    requires TablesOk(t) && ValidateSend(t, c, row.sender, recipients).None?
    requires Sent(t.messages, k, row.sender, row.clientId)
    ensures Append(t, c, row, recipients).0 == t
    ensures Append(t, c, row, recipients).1 ==
            (if k.0 == c then Ok(Receipt(k.1, true)) else Err(ConvMismatch))
  {
    assert FindSent(t.messages, row.sender, row.clientId) == Some(k);
  }

  lemma FirstSendIsStored(t: Tables, c: ConvId, row: Row, recipients: seq<AccountId>)
    requires TablesOk(t) && ValidateSend(t, c, row.sender, recipients).None?
    requires forall k :: !Sent(t.messages, k, row.sender, row.clientId)
    ensures
      var (u, r) := Append(t, c, row, recipients);
      && c in t.convs && r == Ok(Receipt(t.convs[c].lastSeq + 1, false))
      && u.convs[c].lastSeq == t.convs[c].lastSeq + 1
      && u.messages == t.messages[(c, u.convs[c].lastSeq) := row.(deleted := None)]
      && Sent(u.messages, (c, u.convs[c].lastSeq), row.sender, row.clientId)
  {
    assert IsMember(t, c, row.sender);
  }

  /** An accepted envelope has a surviving row under the number reported. */
  lemma ReceiptNamesTheRow(t: Tables, c: ConvId, row: Row, recipients: seq<AccountId>)
    requires TablesOk(t) && Append(t, c, row, recipients).1.Ok?
    ensures
      var (u, r) := Append(t, c, row, recipients);
      && Sent(u.messages, (c, r.value.at), row.sender, row.clientId)
      && c in u.log && 0 < r.value.at <= |u.log[c]|
  {
    hide SentOnce, RecordsPointBack, DirectOnce, Windows;
    if FindSent(t.messages, row.sender, row.clientId).None? { FirstSendIsStored(t, c, row, recipients); }
  }

  /** A message sent once and re-sent at any later time is stored once as long as its row survives. */
  lemma ExactlyOnce(t: Tables, c: ConvId, row: Row, recipients: seq<AccountId>, ops: seq<Op>, again: seq<AccountId>)
    requires TablesOk(t) && Append(t, c, row, recipients).1.Ok?
    requires
      var (u, r) := Append(t, c, row, recipients);
      var v := Run(u, ops);
      (c, r.value.at) in v.messages && ValidateSend(v, c, row.sender, again).None?
    ensures
      var (u, r) := Append(t, c, row, recipients);
      var v := Run(u, ops);
      Append(v, c, row, again) == (v, Ok(Receipt(r.value.at, true)))
  {
    var (u, r) := Append(t, c, row, recipients);
    hide TablesOk, Grows, Run;
    ReceiptNamesTheRow(t, c, row, recipients);
    AppendKeeps(t, c, row, recipients);
    NumbersAreNotReused(u, ops, c, r.value.at);
    RunKeeps(u, ops);
    SendIsIdempotent(Run(u, ops), c, row, again, (c, r.value.at));
  }

  lemma RecordInserts(
    t: Tables, c: ConvId, s: nat, actor: AccountId, device: string, recordId: string, now: Millis)
    requires TablesOk(t) && Delete(t, c, s, actor, device, recordId, now).1.Ok?
    ensures IsMessage(t, c, s) && c in t.convs && s <= t.convs[c].lastSeq
    ensures
      var (u, r) := Delete(t, c, s, actor, device, recordId, now);
      && r == Ok(t.convs[c].lastSeq + 1) && u.convs[c].lastSeq == r.value
      && u.messages == (t.messages - {(c, s)})[(c, r.value) := Record(t, c, s, actor, device, recordId, now)]
  {
    hide SentOnce, RecordsPointBack, DirectOnce, Windows;
  }

  lemma DeletingFreesId(
    t: Tables, c: ConvId, s: nat, actor: AccountId, device: string, recordId: string, now: Millis, k: Key,
    sender: AccountId, clientId: string)
    requires TablesOk(t) && Delete(t, c, s, actor, device, recordId, now).1.Ok?
    requires Sent(t.messages, (c, s), sender, clientId) && (actor, recordId) != (sender, clientId)
    ensures !Sent(Delete(t, c, s, actor, device, recordId, now).0.messages, k, sender, clientId)
  {
    RecordInserts(t, c, s, actor, device, recordId, now);
    hide RowsFromLog, RecordsPointBack, Windows, DirectOnce, Delete, Numbered;
  }

  /**
   Exactly once lasts as long as the row: after a message is deleted its sender can send
   under the same client id again, and the new row gets a number of its own.
   */
  lemma DeletedIdIsFree(
    t: Tables, c: ConvId, s: nat, actor: AccountId, device: string, recordId: string, now: Millis,
    row: Row, recipients: seq<AccountId>)
    requires TablesOk(t) && Delete(t, c, s, actor, device, recordId, now).1.Ok?
    requires Sent(t.messages, (c, s), row.sender, row.clientId) && (actor, recordId) != (row.sender, row.clientId)
    requires ValidateSend(Delete(t, c, s, actor, device, recordId, now).0, c, row.sender, recipients).None?
    ensures
      var u := Delete(t, c, s, actor, device, recordId, now).0;
      var (v, r) := Append(u, c, row, recipients);
      && c in u.convs && r == Ok(Receipt(u.convs[c].lastSeq + 1, false)) && s < r.value.at
      && Sent(v.messages, (c, r.value.at), row.sender, row.clientId)
  {
    var u := Delete(t, c, s, actor, device, recordId, now).0;
    hide Delete, TablesOk, Grows, Append;
    RecordInserts(t, c, s, actor, device, recordId, now);
    DeleteKeeps(t, c, s, actor, device, recordId, now);
    forall k
      ensures !Sent(u.messages, k, row.sender, row.clientId)
    {
      DeletingFreesId(t, c, s, actor, device, recordId, now, k, row.sender, row.clientId);
    }
    FirstSendIsStored(u, c, row, recipients);
  }

  // --- The visibility window ------------------------------------------------------------------

  /** The account stays a member at every point of the run. */
  ghost predicate Stays(t: Tables, ops: seq<Op>, c: ConvId, a: AccountId)
    decreases |ops|
  {
    IsMember(t, c, a) && (ops == [] || Stays(Do(t, ops[0]), ops[1..], c, a))
  }

  lemma StepKeepsWindow(t: Tables, op: Op, c: ConvId, a: AccountId)
    requires TablesOk(t) && IsMember(t, c, a) && IsMember(Do(t, op), c, a)
    ensures Do(t, op).members[(c, a)].joinedSeq == t.members[(c, a)].joinedSeq
    ensures t.members[(c, a)].readSeq <= Do(t, op).members[(c, a)].readSeq
  {
    hide SentOnce, RecordsPointBack, RowsFromLog, DirectOnce;
    assert c in t.convs;
    if op.OpGroup? {
      GroupHasItsMembers(t.members, op.id, op.creator, op.others, (c, a));
    }
  }

  lemma {:induction false} MembershipKeepsWindow(t: Tables, ops: seq<Op>, c: ConvId, a: AccountId)
    requires TablesOk(t) && Stays(t, ops, c, a)
    ensures
      var u := Run(t, ops);
      && IsMember(u, c, a)
      && u.members[(c, a)].joinedSeq == t.members[(c, a)].joinedSeq
      && t.members[(c, a)].readSeq <= u.members[(c, a)].readSeq
      && c in u.convs && u.members[(c, a)].readSeq <= u.convs[c].lastSeq
    decreases |ops|
  {
    if ops != [] {
      assert Stays(Do(t, ops[0]), ops[1..], c, a);
      StepKeepsWindow(t, ops[0], c, a);
      DoKeeps(t, ops[0]);
      MembershipKeepsWindow(Do(t, ops[0]), ops[1..], c, a);
    }
  }

  /** The query returns surviving rows of the window in ascending order, no more than asked for. */
  lemma {:induction false} ListingIsSound(messages: Rows, c: ConvId, s: nat, last: nat, limit: nat)
    ensures
      var out := Listing(messages, c, s, last, limit);
      && |out| <= limit
      && (forall i :: 0 <= i < |out| ==> s <= out[i] <= last && (c, out[i]) in messages)
      && (forall i, j :: 0 <= i < j < |out| ==> out[i] < out[j])
    decreases last + 1 - s
  {
    if s <= last && limit > 0 {
      ListingIsSound(messages, c, s + 1, last, if (c, s) in messages then limit - 1 else limit);
    }
  }

  /** A surviving row of the window is missing only when the answer is full of earlier rows. */
  lemma {:induction false} ListingIsComplete(messages: Rows, c: ConvId, s: nat, last: nat, limit: nat, r: nat)
    requires s <= r <= last && (c, r) in messages
    ensures
      var out := Listing(messages, c, s, last, limit);
      r in out || (|out| == limit && forall i :: 0 <= i < |out| ==> out[i] < r)
    decreases last + 1 - s
  {
    if limit > 0 && s < r {
      ListingIsComplete(messages, c, s + 1, last, if (c, s) in messages then limit - 1 else limit, r);
    }
  }

  /** A member is only ever shown rows after the point it joined at. */
  lemma WindowHidesOldRows(t: Tables, c: ConvId, a: AccountId, after: int, limit: nat)
    requires IsMember(t, c, a)
    ensures
      var joined := t.members[(c, a)].joinedSeq;
      var out := MessagesAfter(t, c, after, joined, limit);
      forall i :: 0 <= i < |out| ==> joined < out[i] && after < out[i] && (c, out[i]) in t.messages
  {
    var joined := t.members[(c, a)].joinedSeq;
    if c in t.convs {
      ListingIsSound(t.messages, c, Start(after, joined), t.convs[c].lastSeq, limit);
    }
  }

  /** An account that joins now, and stays, is never shown a row from before, and its window never moves back. */
  lemma JoinersSeeOnlyNewRows(t: Tables, c: ConvId, a: AccountId, ops: seq<Op>, after: int, limit: nat)
    requires TablesOk(t) && AddMember(t, c, a).1.Ok?
    requires Stays(AddMember(t, c, a).0, ops, c, a)
    ensures
      var u := Run(AddMember(t, c, a).0, ops);
      && IsMember(u, c, a)
      && var out := MessagesAfter(u, c, after, u.members[(c, a)].joinedSeq, limit);
         forall i :: 0 <= i < |out| ==> |t.log[c]| < out[i] && (c, out[i]) in u.messages
  {
    hide Grows, MessagesAfter;
    var t1 := AddMember(t, c, a).0;
    DoKeeps(t, OpAdd(c, a));
    MembershipKeepsWindow(t1, ops, c, a);
    WindowHidesOldRows(Run(t1, ops), c, a, after, limit);
  }
}
