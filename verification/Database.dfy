/**
 The server's store as the object it is: methods that read and replace tables
 inside a transaction, each proved against its step in module ServerLog.
 */
module Database {
  import opened Wrappers
  import opened ServerLog
  import opened ServerRuns

  // --- The key of a direct conversation ------------------------------------------------

  /** Byte order of strings. */
  predicate Above(a: string, b: string)
    decreases |a|
  {
    a != [] && (b == [] || a[0] > b[0] || (a[0] == b[0] && Above(a[1..], b[1..])))
  }

  function DirectKey(a: AccountId, b: AccountId): string {
    if Above(a, b) then b + ":" + a else a + ":" + b
  }

  lemma {:induction false} AboveIsTotal(a: string, b: string)
    ensures a != b ==> Above(a, b) != Above(b, a)
    ensures !Above(a, a)
    decreases |a|
  {
    if a != [] {
      AboveIsTotal(a[1..], a[1..]);
      if b != [] {
        AboveIsTotal(a[1..], b[1..]);
        if a[0] == b[0] && a != b {
          assert a == [a[0]] + a[1..] && b == [b[0]] + b[1..];
        }
      }
    }
  }

  function FirstColon(s: string): nat {
    if s == [] || s[0] == ':' then 0 else 1 + FirstColon(s[1..])
  }

  lemma {:induction false} FirstColonIsThere(a: string, b: string)
    requires ':' !in a
    ensures FirstColon(a + ":" + b) == |a|
  {
    if a != [] {
      FirstColonIsThere(a[1..], b);
      assert (a + ":" + b)[1..] == a[1..] + ":" + b;
    }
  }

  lemma SplitAtColon(a: string, b: string, x: string, y: string)
    requires a + ":" + b == x + ":" + y && ':' !in a && ':' !in x
    ensures a == x && b == y
  {
    FirstColonIsThere(a, b);
    FirstColonIsThere(x, y);
    assert a == (a + ":" + b)[..|a|] && b == (a + ":" + b)[|a| + 1..];
    assert x == (x + ":" + y)[..|x|] && y == (x + ":" + y)[|x| + 1..];
  }

  /** One key per unordered pair of account ids. */
  lemma DirectKeyNamesThePair(a: AccountId, b: AccountId, x: AccountId, y: AccountId)
    requires ':' !in a && ':' !in b && ':' !in x && ':' !in y
    ensures DirectKey(a, b) == DirectKey(x, y) <==> (a == x && b == y) || (a == y && b == x)
  {
    AboveIsTotal(a, b);
    AboveIsTotal(x, y);
    if DirectKey(a, b) == DirectKey(x, y) {
      var (p, q) := if Above(a, b) then (b, a) else (a, b);
      var (r, s) := if Above(x, y) then (y, x) else (x, y);
      SplitAtColon(p, q, r, s);
    }
  }

  /** The parts of the invariant the queries rely on. */
  lemma Uniqueness(t: Tables)
    requires TablesOk(t)
    ensures SentOnce(t.messages) && DirectOnce(t.convs) && t.log.Keys == t.convs.Keys
  {}

  // --- The store --------------------------------------------------------------------------

  class Store {
    var convs: map<ConvId, Conversation>
    var members: map<(ConvId, AccountId), Member>
    var messages: Rows
    ghost var log: map<ConvId, seq<Row>>

    ghost function Now(): Tables
      reads this
    {
      Tables(convs, members, messages, log)
    }

    ghost predicate Valid()
      reads this
    {
      TablesOk(Now())
    }

    constructor ()
      ensures Valid() && Now() == NO_TABLES
    {
      convs, members, messages, log := map[], map[], map[], map[];
    }

    method MemberAccountIDs(c: ConvId) returns (list: seq<AccountId>)
      ensures forall a :: a in list <==> IsMember(Now(), c, a)
      ensures forall i, j :: 0 <= i < j < |list| ==> list[i] != list[j]
    {
      list := [];
      var todo := members.Keys;
      while todo != {}
        invariant todo <= members.Keys
        invariant forall a :: a in list <==> (c, a) in members.Keys - todo
        invariant forall i, j :: 0 <= i < j < |list| ==> list[i] != list[j]
        decreases todo
      {
        var k :| k in todo;
        if k.0 == c { list := list + [k.1]; }
        todo := todo - {k};
      }
    }

    /** Lists the members of c, and refuses a sender or a recipient who is not one. */
    method ValidateSend(c: ConvId, sender: AccountId, recipients: seq<AccountId>)
      returns (list: seq<AccountId>, refusal: Option<StoreError>)
      ensures refusal == ServerLog.ValidateSend(Now(), c, sender, recipients)
      ensures forall a :: a in list <==> IsMember(Now(), c, a)
      ensures forall i, j :: 0 <= i < j < |list| ==> list[i] != list[j]
    {
      list := MemberAccountIDs(c);
      if sender !in list { return list, Some(NotMember); }
      for i := 0 to |recipients|
        invariant forall j :: 0 <= j < i ==> IsMember(Now(), c, recipients[j])
      {
        if recipients[i] !in list {
          assert recipients[i] in recipients && !IsMember(Now(), c, recipients[i]);
          return list, Some(BadRecipient);
        }
      }
      refusal := None;
    }

    method LookUpSent(rows: Rows, sender: AccountId, clientId: string) returns (r: Option<Key>)
      requires SentOnce(rows)
      ensures r == FindSent(rows, sender, clientId)
    {
      var todo := rows.Keys;
      while todo != {}
        invariant todo <= rows.Keys
        invariant forall k :: k in rows.Keys - todo ==> !Sent(rows, k, sender, clientId)
        decreases todo
      {
        var k :| k in todo;
        if rows[k].sender == sender && rows[k].clientId == clientId {
          assert Sent(rows, k, sender, clientId);
          return Some(k);
        }
        todo := todo - {k};
      }
      r := None;
    }

    /** Stores a row under the next number of its conversation. */
    method InsertRow(c: ConvId, row: Row) returns (at: nat)
      requires c in convs && c in log
      modifies this
      ensures Now() == Insert(old(Now()), c, row) && at == old(convs[c].lastSeq) + 1
    {
      at := convs[c].lastSeq + 1;
      messages := messages[(c, at) := row];
      convs := convs[c := convs[c].(lastSeq := at)];
      log := log[c := log[c] + [row]];
    }

    method AppendMessage(c: ConvId, row: Row, recipients: seq<AccountId>)
      returns (r: Result<Receipt, StoreError>, list: seq<AccountId>)
      requires Valid()
      modifies this
      ensures Valid()
      ensures (Now(), r) == Append(old(Now()), c, row, recipients)
      ensures forall a :: a in list <==> IsMember(old(Now()), c, a)
      ensures forall i, j :: 0 <= i < j < |list| ==> list[i] != list[j]
    {
      ghost var t := Now();
      hide TablesOk;
      AppendKeeps(t, c, row, recipients);
      Uniqueness(t);
      var refusal;
      list, refusal := ValidateSend(c, row.sender, recipients);
      if refusal.Some? { return Err(refusal.value), list; }
      var existing := LookUpSent(messages, row.sender, row.clientId);
      if existing.Some? {
        var k := existing.value;
        if k.0 != c { return Err(ConvMismatch), list; }
        return Ok(Receipt(k.1, true)), list;
      }
      if c !in convs { return Err(NotFound), list; }
      var at := InsertRow(c, row.(deleted := None));
      r := Ok(Receipt(at, false));
    }

    method DeleteMessage(c: ConvId, s: nat, actor: AccountId, device: string, recordId: string, now: Millis)
      returns (r: Result<nat, StoreError>)
      requires Valid()
      modifies this
      ensures Valid()
      ensures (Now(), r) == Delete(old(Now()), c, s, actor, device, recordId, now)
    {
      ghost var t := Now();
      hide TablesOk;
      DeleteKeeps(t, c, s, actor, device, recordId, now);
      Uniqueness(t);
      if (c, s) !in messages || messages[(c, s)].deleted.Some? { return Err(NotFound); }
      if c !in convs { return Err(NotFound); }
      var rec := Row(actor, device, recordId, [], [], now, Some(s), messages[(c, s)].sender);
      var rest := messages - {(c, s)};
      FewerSentOnce(messages, rest);
      hide SentOnce;
      var clash := LookUpSent(rest, actor, recordId);
      if clash.Some? { return Err(Constraint); }
      messages := rest;
      assert Now() == t.(messages := rest);
      hide Insert;
      var at := InsertRow(c, rec);
      r := Ok(at);
    }

    /** The page query: rows after max(after, minSeq) in ascending order, at most `limit`. */
    method Messages(c: ConvId, after: int, minSeq: int, limit: nat) returns (out: seq<(nat, Row)>)
      ensures |out| == |MessagesAfter(Now(), c, after, minSeq, limit)|
      ensures forall i :: 0 <= i < |out| ==>
        out[i].0 == MessagesAfter(Now(), c, after, minSeq, limit)[i]
        && (c, out[i].0) in messages && out[i].1 == messages[(c, out[i].0)]
    {
      out := [];
      if c !in convs { return; }
      ghost var all := MessagesAfter(Now(), c, after, minSeq, limit);
      var s, last: nat := Start(after, minSeq), convs[c].lastSeq;
      while s <= last && |out| < limit
        invariant 0 < s && |out| <= limit && |out| <= |all|
        invariant all[|out|..] == Listing(messages, c, s, last, limit - |out|)
        invariant forall i :: 0 <= i < |out| ==>
          out[i].0 == all[i] && (c, out[i].0) in messages && out[i].1 == messages[(c, out[i].0)]
        decreases last + 1 - s
      {
        if (c, s) in messages {
          assert all[|out|] == s && all[|out| + 1..] == all[|out|..][1..];
          out := out + [(s, messages[(c, s)])];
        }
        s := s + 1;
      }
      assert all[|out|..] == [];
    }

    method Message(c: ConvId, s: nat) returns (r: Result<Row, StoreError>)
      ensures r == (if IsMessage(Now(), c, s) then Ok(messages[(c, s)]) else Err(NotFound))
    {
      if (c, s) in messages && messages[(c, s)].deleted.None? {
        r := Ok(messages[(c, s)]);
      } else {
        r := Err(NotFound);
      }
    }

    method LookUpDirect(key: string) returns (r: Option<ConvId>)
      requires DirectOnce(convs)
      ensures r == FindDirect(convs, key)
    {
      var todo := convs.Keys;
      while todo != {}
        invariant todo <= convs.Keys
        invariant forall c :: c in convs.Keys - todo ==> convs[c].directKey != Some(key)
        decreases todo
      {
        var c :| c in todo;
        if convs[c].directKey == Some(key) { return Some(c); }
        todo := todo - {c};
      }
      r := None;
    }

    method CreateDirect(newId: ConvId, a: AccountId, b: AccountId) returns (r: Result<(ConvId, bool), StoreError>)
      requires Valid()
      modifies this
      ensures Valid()
      ensures (Now(), r) == ServerLog.CreateDirect(old(Now()), newId, DirectKey(a, b), a, b)
    {
      ghost var t := Now();
      hide TablesOk;
      Uniqueness(t);
      var key := DirectKey(a, b);
      var existing := LookUpDirect(key);
      if existing.Some? { return Ok((existing.value, false)); }
      if newId in convs || a == b { return Err(Constraint); }
      convs := convs[newId := Conversation(Some(key), a, 0, 0)];
      members := members[(newId, a) := Member(Plain, 0, 0)][(newId, b) := Member(Plain, 0, 0)];
      log := log[newId := []];
      r := Ok((newId, true));
      assert Now() == Do(t, OpDirect(newId, key, a, b));
      DoKeeps(t, OpDirect(newId, key, a, b));
    }

    /** Inserts the members of a group one by one, skipping repeats and the creator. */
    method InsertMembers(c: ConvId, creator: AccountId, others: seq<AccountId>)
      modifies `members
      ensures members == EnterGroup(old(members), c, creator, others)
    {
      members := members[(c, creator) := Member(Owner, 0, 0)];
      for i := 0 to |others|
        invariant members == EnterGroup(old(members), c, creator, others[..i])
      {
        assert others[..i + 1][..i] == others[..i];
        if others[i] != creator {
          members := members[(c, others[i]) := Member(Plain, 0, 0)];
        }
      }
      assert others[..|others|] == others;
    }

    method CreateGroup(id: ConvId, creator: AccountId, others: seq<AccountId>) returns (r: Result<(), StoreError>)
      requires Valid()
      modifies this
      ensures Valid()
      ensures (Now(), r) == ServerLog.CreateGroup(old(Now()), id, creator, others)
    {
      ghost var t := Now();
      hide TablesOk;
      Uniqueness(t);
      if id in convs { return Err(Constraint); }
      convs := convs[id := Conversation(None, creator, 0, 0)];
      log := log[id := []];
      InsertMembers(id, creator, others);
      r := Ok(());
      assert Now() == Do(t, OpGroup(id, creator, others));
      DoKeeps(t, OpGroup(id, creator, others));
    }

    method AddMember(c: ConvId, a: AccountId) returns (r: Result<(), StoreError>)
      requires Valid()
      modifies this
      ensures Valid()
      ensures (Now(), r) == ServerLog.AddMember(old(Now()), c, a)
    {
      DoKeeps(Now(), OpAdd(c, a));
      if c !in convs { return Err(NotFound); }
      if (c, a) in members { return Err(Conflict); }
      var n := convs[c].lastSeq;
      members := members[(c, a) := Member(Plain, n, n)];
      r := Ok(());
    }

    method RemoveMember(c: ConvId, a: AccountId) returns (r: Result<(), StoreError>)
      requires Valid()
      modifies this
      ensures Valid()
      ensures (Now(), r) == ServerLog.RemoveMember(old(Now()), c, a)
    {
      DoKeeps(Now(), OpRemove(c, a));
      if (c, a) !in members { return Err(NotFound); }
      members := members - {(c, a)};
      r := Ok(());
    }

    method MarkRead(c: ConvId, a: AccountId, s: int) returns (r: Result<(), StoreError>)
      requires Valid()
      modifies this
      ensures Valid()
      ensures (Now(), r) == ServerLog.MarkRead(old(Now()), c, a, s)
    {
      DoKeeps(Now(), OpRead(c, a, s));
      if (c, a) !in members || c !in convs { return Err(NotFound); }
      var m := members[(c, a)];
      members := members[(c, a) := m.(readSeq := Max(m.readSeq, Min(s, convs[c].lastSeq)))];
      r := Ok(());
    }

    method SetRetention(c: ConvId, seconds: nat) returns (r: Result<(), StoreError>)
      requires Valid()
      modifies this
      ensures Valid()
      ensures (Now(), r) == ServerLog.SetRetention(old(Now()), c, seconds)
    {
      DoKeeps(Now(), OpRetention(c, seconds));
      if c !in convs { return Err(NotFound); }
      convs := convs[c := convs[c].(retention := seconds)];
      r := Ok(());
    }

    /** When each conversation with a timer stops keeping messages. */
    method Cutoffs(now: Millis, limit: int) returns (cutoffs: map<ConvId, Millis>)
      ensures forall c :: c in cutoffs <==> c in convs && EffectiveRetention(convs[c].retention, limit) > 0
      ensures forall c :: c in cutoffs ==> cutoffs[c] == now - EffectiveRetention(convs[c].retention, limit) * 1000
    {
      cutoffs := map[];
      var todo := convs.Keys;
      while todo != {}
        invariant todo <= convs.Keys && cutoffs.Keys <= convs.Keys - todo
        invariant forall c :: c in convs.Keys - todo ==>
          (c in cutoffs <==> EffectiveRetention(convs[c].retention, limit) > 0)
        invariant forall c :: c in cutoffs ==>
          cutoffs[c] == now - EffectiveRetention(convs[c].retention, limit) * 1000
        decreases todo
      {
        var c :| c in todo;
        var ret := convs[c].retention;
        if limit > 0 && (ret == 0 || ret > limit) { ret := limit; }
        if ret > 0 { cutoffs := cutoffs[c := now - ret * 1000]; }
        todo := todo - {c};
      }
    }

    method PurgeRows(cutoffs: map<ConvId, Millis>) returns (deleted: nat)
      modifies `messages
      ensures messages == KeptOutside(old(messages), cutoffs, cutoffs.Keys)
      ensures deleted == |old(messages)| - |messages|
    {
      deleted := 0;
      var left := cutoffs.Keys;
      ghost var before := messages;
      while left != {}
        invariant left <= cutoffs.Keys
        invariant messages == KeptOutside(before, cutoffs, cutoffs.Keys - left)
        invariant deleted == |before| - |messages|
        decreases left
      {
        var c :| c in left;
        var rest := map k | k in messages && !(k.0 == c && messages[k].serverTs < cutoffs[c]) :: messages[k];
        Shrinks(messages, rest);
        deleted := deleted + (|messages| - |rest|);
        messages := rest;
        left := left - {c};
      }
    }

    /** Deletes expired messages conversation by conversation and counts them. */
    method PurgeExpired(now: Millis, limit: int) returns (deleted: nat)
      requires Valid()
      modifies this
      ensures Valid()
      ensures Now() == Purge(old(Now()), now, limit)
      ensures deleted == |old(messages)| - |messages|
    {
      hide TablesOk;
      PurgeKeeps(Now(), now, limit);
      var cutoffs := Cutoffs(now, limit);
      CutoffsDecide(Now(), cutoffs, now, limit);
      deleted := PurgeRows(cutoffs);
    }
  }

  lemma CutoffsDecide(t: Tables, cutoffs: map<ConvId, Millis>, now: Millis, limit: int)
    requires forall c :: c in cutoffs <==> c in t.convs && EffectiveRetention(t.convs[c].retention, limit) > 0
    requires forall c :: c in cutoffs ==> cutoffs[c] == now - EffectiveRetention(t.convs[c].retention, limit) * 1000
    ensures KeptOutside(t.messages, cutoffs, cutoffs.Keys) == Purge(t, now, limit).messages
  {}

  /** The rows left once the conversations in `done` have been purged. */
  function KeptOutside(rows: Rows, cutoffs: map<ConvId, Millis>, done: set<ConvId>): Rows
    requires done <= cutoffs.Keys
  {
    map k | k in rows && !(k.0 in done && rows[k].serverTs < cutoffs[k.0]) :: rows[k]
  }

  lemma FewerSentOnce(rows: Rows, rest: Rows)
    requires SentOnce(rows) && rest.Keys <= rows.Keys && forall k :: k in rest ==> rest[k] == rows[k]
    ensures SentOnce(rest)
  {}

  lemma Shrinks(m: Rows, n: Rows)
    requires n.Keys <= m.Keys
    ensures |n| <= |m|
  {
    assert m.Keys == n.Keys + (m.Keys - n.Keys);
    assert |m.Keys| == |n.Keys| + |m.Keys - n.Keys|;
  }
}
