/**
 What each transaction of the server promises whoever calls it, in terms of the tables before
 and after: who is let through, what is refused and why, and what else may change.
 */
module ServerLaws {
  import opened Wrappers
  import opened ServerLog
  import opened ServerRuns
  import Database

  // --- Sending -------------------------------------------------------------------------------

  /** The sender and everyone addressed are members. */
  predicate AllMembers(t: Tables, c: ConvId, sender: AccountId, recipients: seq<AccountId>) {
    IsMember(t, c, sender) && forall i :: 0 <= i < |recipients| ==> IsMember(t, c, recipients[i])
  }

  /** A send is let through exactly when all of them are; an outsider who sends is told so before all else. */
  lemma ValidateSendExactly(t: Tables, c: ConvId, sender: AccountId, recipients: seq<AccountId>)
    ensures ValidateSend(t, c, sender, recipients).None? <==> AllMembers(t, c, sender, recipients)
    ensures ValidateSend(t, c, sender, recipients) == Some(NotMember) <==> !IsMember(t, c, sender)
    ensures ValidateSend(t, c, sender, recipients) == Some(BadRecipient) <==>
            IsMember(t, c, sender) && !AllMembers(t, c, sender, recipients)
  {
    hide IsMember;
    if r :| r in recipients && !IsMember(t, c, r) {
      var i :| 0 <= i < |recipients| && recipients[i] == r;
    }
  }

  /**
   What a send does, in every case. Members only, and only to members; a client id that some
   surviving row has stores nothing; otherwise the row as it was sent is the next of its
   conversation, and that is the only change.
   */
  lemma AppendExactly(t: Tables, c: ConvId, row: Row, recipients: seq<AccountId>)
    requires TablesOk(t)
    ensures
      var (u, r) := Append(t, c, row, recipients);
      var allowed := AllMembers(t, c, row.sender, recipients);
      && (r == Err(NotMember) <==> !IsMember(t, c, row.sender))
      && (r == Err(BadRecipient) <==> IsMember(t, c, row.sender) && !allowed)
      && (r == Err(ConvMismatch) <==>
            allowed && exists d, s: nat :: d != c && Sent(t.messages, (d, s), row.sender, row.clientId))
      && (forall s :: r == Ok(Receipt(s, true)) <==> allowed && Sent(t.messages, (c, s), row.sender, row.clientId))
      && ((r.Ok? && !r.value.duplicate) <==>
            allowed && forall k :: !Sent(t.messages, k, row.sender, row.clientId))
      && (r.Err? || r.value.duplicate ==> u == t)
      && (r.Ok? && !r.value.duplicate ==>
            && c in t.convs && c in t.log && r.value.at == t.convs[c].lastSeq + 1
            && u == Tables(t.convs[c := t.convs[c].(lastSeq := r.value.at)], t.members,
                           t.messages[(c, r.value.at) := row.(deleted := None)],
                           t.log[c := t.log[c] + [row.(deleted := None)]]))
  {
    ValidateSendExactly(t, c, row.sender, recipients);
    assert IsMember(t, c, row.sender) ==> c in t.convs && c in t.log;
    assert SentOnce(t.messages);
    hide TablesOk, AllMembers, ValidateSend, SentOnce;
    var found := FindSent(t.messages, row.sender, row.clientId);
    if found.Some? {
      var k := found.value;
      assert Sent(t.messages, (k.0, k.1), row.sender, row.clientId);
      forall d, s: nat | Sent(t.messages, (d, s), row.sender, row.clientId)
        ensures (d, s) == k
      {
        SentIsOne(t.messages, (d, s), k, row.sender, row.clientId);
      }
    }
  }

  lemma SentIsOne(messages: Rows, k: Key, l: Key, sender: AccountId, clientId: string)
    requires SentOnce(messages) && Sent(messages, k, sender, clientId) && Sent(messages, l, sender, clientId)
    ensures k == l
  {}

  // --- Deleting --------------------------------------------------------------------------------

  /**
   What deleting does, in every case. Only a message can be deleted; its row goes, and in its
   place the next number holds a record that says who deleted, when, which row and whose it was.
   */
  lemma DeleteExactly(t: Tables, c: ConvId, s: nat, actor: AccountId, device: string, recordId: string, now: Millis)
    requires TablesOk(t)
    ensures
      var (u, r) := Delete(t, c, s, actor, device, recordId, now);
      var there := (c, s) in t.messages && t.messages[(c, s)].deleted.None?;
      var clash := exists k :: k != (c, s) && Sent(t.messages, k, actor, recordId);
      && (r == Err(NotFound) <==> !there) && (r == Err(Constraint) <==> there && clash) && (r.Ok? <==> there && !clash)
      && (r.Err? ==> u == t)
      && (r.Ok? ==>
            && c in t.convs && c in t.log && r.value == t.convs[c].lastSeq + 1
            && var record := Row(actor, device, recordId, [], [], now, Some(s), t.messages[(c, s)].sender);
               u == Tables(t.convs[c := t.convs[c].(lastSeq := r.value)], t.members,
                           (t.messages - {(c, s)})[(c, r.value) := record], t.log[c := t.log[c] + [record]]))
  {
    assert (c, s) in t.messages ==> c in t.convs && c in t.log;
    hide TablesOk;
    if IsMessage(t, c, s) {
      var rest := t.messages - {(c, s)};
      assert forall k :: Sent(rest, k, actor, recordId) <==> k != (c, s) && Sent(t.messages, k, actor, recordId);
    }
  }

  // --- Members -----------------------------------------------------------------------------------

  /** What an operation says about whether a is a member of c: that it is, that it is not, or nothing. */
  ghost function Says(t: Tables, op: Op, c: ConvId, a: AccountId): Option<bool> {
    match op
    case OpAdd(d, x) => if d == c && x == a && c in t.convs then Some(true) else None
    case OpRemove(d, x) => if d == c && x == a then Some(false) else None
    case OpGroup(d, creator, others) =>
      if d == c && c !in t.convs && (a == creator || a in others) then Some(true) else None
    case OpDirect(d, key, x, y) =>
      if d == c && c !in t.convs && x != y && (a == x || a == y)
         && forall e :: e in t.convs ==> t.convs[e].directKey != Some(key)
      then Some(true) else None
    case _ => None
  }

  /** What a run said last. */
  ghost function LastSaid(t: Tables, ops: seq<Op>, c: ConvId, a: AccountId, word: bool): bool
    decreases |ops|
  {
    if ops == [] then word
    else
      var said := Says(t, ops[0], c, a);
      LastSaid(Do(t, ops[0]), ops[1..], c, a, if said.Some? then said.value else word)
  }

  lemma StepSays(t: Tables, op: Op, c: ConvId, a: AccountId)
    ensures
      var said := Says(t, op, c, a);
      IsMember(Do(t, op), c, a) <==> if said.Some? then said.value else IsMember(t, c, a)
  {
    if op.OpGroup? { GroupHasItsMembers(t.members, op.id, op.creator, op.others, (c, a)); }
    hide EnterGroup, FindSent, Insert, Record;
  }

  /**
   Over every run an account is a member exactly when the last operation that spoke of its
   membership made it one: being added, or being named when the conversation was made.
   */
  lemma {:induction false} MembersByTheLastWord(t: Tables, ops: seq<Op>, c: ConvId, a: AccountId)
    ensures IsMember(Run(t, ops), c, a) <==> LastSaid(t, ops, c, a, IsMember(t, c, a))
    decreases |ops|
  {
    hide Do, Says, IsMember;
    if ops != [] {
      StepSays(t, ops[0], c, a);
      MembersByTheLastWord(Do(t, ops[0]), ops[1..], c, a);
    }
  }

  /** Only who made a group owns it, and nobody owns a direct conversation. */
  ghost predicate OwnersMade(t: Tables) {
    forall k :: k in t.members && t.members[k].role == Owner ==>
      k.0 in t.convs && t.convs[k.0].createdBy == k.1 && t.convs[k.0].directKey.None?
  }

  lemma GroupOwners(t: Tables, id: ConvId, creator: AccountId, others: seq<AccountId>)
    requires Windows(t) && OwnersMade(t)
    ensures OwnersMade(CreateGroup(t, id, creator, others).0)
  {
    var u := CreateGroup(t, id, creator, others).0;
    forall k | k in u.members && u.members[k].role == Owner
      ensures k.0 in u.convs && u.convs[k.0].createdBy == k.1 && u.convs[k.0].directKey.None?
    {
      GroupHasItsMembers(t.members, id, creator, others, k);
      hide EnterGroup;
    }
  }

  lemma StepOwners(t: Tables, op: Op)
    requires Windows(t) && OwnersMade(t)
    ensures OwnersMade(Do(t, op))
  {
    hide EnterGroup, FindSent, FindDirect, Record;
    if op.OpGroup? {
      GroupOwners(t, op.id, op.creator, op.others);
      hide CreateGroup, OwnersMade;
    } else {
      hide CreateGroup;
    }
  }

  lemma {:induction false} OwnersMadeTheirGroups(t: Tables, ops: seq<Op>)
    requires TablesOk(t) && OwnersMade(t)
    ensures OwnersMade(Run(t, ops))
    decreases |ops|
  {
    hide OwnersMade, Do, Grows;
    if ops != [] {
      DoKeeps(t, ops[0]);
      assert Windows(t);
      hide TablesOk, Windows;
      StepOwners(t, ops[0]);
      OwnersMadeTheirGroups(Do(t, ops[0]), ops[1..]);
    }
  }

  /** Adding a member: one who is there is refused; a new one comes at the newest row and sees nothing before it. */
  lemma AddExactly(t: Tables, c: ConvId, a: AccountId)
    ensures
      var (u, r) := AddMember(t, c, a);
      && (r == Err(NotFound) <==> c !in t.convs) && (r == Err(Conflict) <==> c in t.convs && IsMember(t, c, a))
      && (r.Ok? <==> c in t.convs && !IsMember(t, c, a)) && (r.Err? ==> u == t)
      && (r.Ok? ==> u == t.(members := u.members) && u.members.Keys == t.members.Keys + {(c, a)}
                    && u.members[(c, a)] == Member(Plain, t.convs[c].lastSeq, t.convs[c].lastSeq)
                    && forall k :: k in t.members ==> u.members[k] == t.members[k])
  {}

  /** Removing a member removes that one. */
  lemma RemoveExactly(t: Tables, c: ConvId, a: AccountId)
    ensures
      var (u, r) := RemoveMember(t, c, a);
      && (r.Ok? <==> IsMember(t, c, a)) && (r.Err? ==> r.error == NotFound && u == t)
      && u == t.(members := u.members) && u.members.Keys == t.members.Keys - {(c, a)}
      && forall k :: k in u.members ==> u.members[k] == t.members[k]
  {}

  /**
   A read mark: it goes to the number asked for, no further than the newest row, and not back;
   it is the only thing that changes.
   */
  lemma MarkReadExactly(t: Tables, c: ConvId, a: AccountId, s: int)
    requires TablesOk(t)
    ensures
      var (u, r) := MarkRead(t, c, a, s);
      && (r.Ok? <==> IsMember(t, c, a)) && (r.Err? ==> r.error == NotFound && u == t)
      && (r.Ok? ==>
            && c in t.convs
            && var was, last := t.members[(c, a)].readSeq, t.convs[c].lastSeq;
               u == t.(members := t.members[(c, a) := t.members[(c, a)].(
                         readSeq := if s <= was then was else if s <= last then s else last)]))
  {
    assert IsMember(t, c, a) ==> c in t.convs && t.members[(c, a)].readSeq <= t.convs[c].lastSeq;
  }

  lemma RetentionExactly(t: Tables, c: ConvId, seconds: nat)
    ensures
      var (u, r) := SetRetention(t, c, seconds);
      && (r.Ok? <==> c in t.convs) && (r.Err? ==> r.error == NotFound && u == t)
      && u == t.(convs := u.convs) && u.convs.Keys == t.convs.Keys
      && (forall d :: d in t.convs && d != c ==> u.convs[d] == t.convs[d])
      && (r.Ok? ==> u.convs[c].retention == seconds && u.convs[c] == t.convs[c].(retention := seconds))
  {}

  /** A group is opened empty, for its creator and those named; a taken id is refused. */
  lemma GroupExactly(t: Tables, id: ConvId, creator: AccountId, others: seq<AccountId>)
    requires TablesOk(t)
    ensures
      var (u, r) := CreateGroup(t, id, creator, others);
      && (r.Ok? <==> id !in t.convs) && (r.Err? ==> r.error == Constraint && u == t)
      && (r.Ok? ==>
            && u == Tables(t.convs[id := Conversation(None, creator, 0, 0)], u.members, t.messages, t.log[id := []])
            && forall k :: (k in u.members <==> k in t.members || (k.0 == id && (k.1 == creator || k.1 in others)))
                           && (k in t.members ==> k in u.members && u.members[k] == t.members[k])
                           && (k in u.members && k !in t.members ==>
                                 u.members[k] == Member(if k.1 == creator then Owner else Plain, 0, 0)))
  {
    if id !in t.convs {
      forall k
        ensures var all := EnterGroup(t.members, id, creator, others);
                && (k in all <==> k in t.members || (k.0 == id && (k.1 == creator || k.1 in others)))
                && (k in t.members ==> k in all && all[k] == t.members[k])
                && (k in all && k !in t.members ==>
                      all[k] == Member(if k.1 == creator then Owner else Plain, 0, 0))
      {
        GroupHasItsMembers(t.members, id, creator, others, k);
        assert k in t.members ==> k.0 in t.convs;
      }
    }
    hide EnterGroup;
  }

  /** A direct conversation is the one there is, or a new and empty one with both accounts and nobody else. */
  lemma DirectExactly(t: Tables, newId: ConvId, key: string, a: AccountId, b: AccountId)
    requires TablesOk(t)
    ensures
      var (u, r) := CreateDirect(t, newId, key, a, b);
      var there := exists c :: c in t.convs && t.convs[c].directKey == Some(key);
      && (there ==> r.Ok? && !r.value.1 && u == t && r.value.0 in t.convs && t.convs[r.value.0].directKey == Some(key))
      && (!there && (newId in t.convs || a == b) ==> r == Err(Constraint) && u == t)
      && (!there && newId !in t.convs && a != b ==>
            && r == Ok((newId, true))
            && u == Tables(t.convs[newId := Conversation(Some(key), a, 0, 0)], u.members, t.messages,
                           t.log[newId := []])
            && u.members == t.members[(newId, a) := Member(Plain, 0, 0)][(newId, b) := Member(Plain, 0, 0)]
            && forall x :: IsMember(u, newId, x) <==> x == a || x == b)
  {
    assert forall k :: k in t.members ==> k.0 in t.convs;
  }

  lemma StepKeepsKey(t: Tables, op: Op, c: ConvId)
    requires c in t.convs
    ensures c in Do(t, op).convs && Do(t, op).convs[c].directKey == t.convs[c].directKey
  {
    hide EnterGroup, FindSent, Record;
  }

  lemma {:induction false} RunKeepsKey(t: Tables, ops: seq<Op>, c: ConvId)
    requires c in t.convs
    ensures c in Run(t, ops).convs && Run(t, ops).convs[c].directKey == t.convs[c].directKey
    decreases |ops|
  {
    if ops != [] {
      StepKeepsKey(t, ops[0], c);
      hide Do;
      RunKeepsKey(Do(t, ops[0]), ops[1..], c);
    }
  }

  lemma KeyIsMutual(a: AccountId, b: AccountId)
    ensures Database.DirectKey(a, b) == Database.DirectKey(b, a)
  {
    Database.AboveIsTotal(a, b);
  }

  /** Whoever of the two asks, and whatever happened since, a pair is given the same direct conversation again. */
  lemma DirectIsFoundAgain(t: Tables, newId: ConvId, a: AccountId, b: AccountId, ops: seq<Op>, otherId: ConvId)
    requires TablesOk(t) && CreateDirect(t, newId, Database.DirectKey(a, b), a, b).1.Ok?
    ensures
      var (u, r) := CreateDirect(t, newId, Database.DirectKey(a, b), a, b);
      CreateDirect(Run(u, ops), otherId, Database.DirectKey(b, a), b, a) == (Run(u, ops), Ok((r.value.0, false)))
  {
    var key := Database.DirectKey(a, b);
    var (u, r) := CreateDirect(t, newId, key, a, b);
    var c := r.value.0;
    KeyIsMutual(a, b);
    DirectExactly(t, newId, key, a, b);
    assert c in u.convs && u.convs[c].directKey == Some(key);
    DoKeeps(t, OpDirect(newId, key, a, b));
    assert Do(t, OpDirect(newId, key, a, b)) == u;
    hide TablesOk, Grows, Database.DirectKey, Do;
    RunKeeps(u, ops);
    RunKeepsKey(u, ops, c);
    OneDirect(Run(u, ops), c, key);
  }

  lemma OneDirect(t: Tables, c: ConvId, key: string)
    requires TablesOk(t) && c in t.convs && t.convs[c].directKey == Some(key)
    ensures FindDirect(t.convs, key) == Some(c)
  {
    assert DirectOnce(t.convs);
  }
}
