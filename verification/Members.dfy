/** Whom a device seals a new message to. */
module Members {
  import opened Wrappers
  import History

  type Account = History.Account

  /** A known account. `keysChanged` is set while a new key awaits the user's approval. */
  datatype Contact = Contact(encPub: seq<int>, isBot: bool, keysChanged: bool)

  type Contacts = map<Account, Contact>

  datatype Conversation = Conversation(roster: Option<seq<Account>>, serverMembers: seq<Account>)

  datatype Recipient = Recipient(account: Account, encPub: seq<int>)

  datatype SealError = NoKeys(account: Account) | KeysChanged(account: Account)

  predicate IsBot(contacts: Contacts, a: Account) {
    a in contacts && contacts[a].isBot
  }

  function Base(conv: Conversation): seq<Account> {
    match conv.roster case Some(r) => r case None => conv.serverMembers
  }

  function Kept(list: seq<Account>, server: seq<Account>): seq<Account> {
    if list == [] then []
    else
      var rest, last := Kept(list[..|list| - 1], server), list[|list| - 1];
      if last in server then rest + [last] else rest
  }

  function WithBots(ids: seq<Account>, contacts: Contacts, server: seq<Account>): seq<Account> {
    if server == [] then ids
    else
      var rest, last := WithBots(ids, contacts, server[..|server| - 1]), server[|server| - 1];
      if last !in rest && IsBot(contacts, last) then rest + [last] else rest
  }

  function Sealing(conv: Conversation, contacts: Contacts, me: Account): seq<Account> {
    var ids := WithBots(Kept(Base(conv), conv.serverMembers), contacts, conv.serverMembers);
    if me in ids then ids else ids + [me]
  }

  function Unverified(roster: seq<Account>, contacts: Contacts, server: seq<Account>): seq<Account> {
    if server == [] then []
    else
      var rest, last := Unverified(roster, contacts, server[..|server| - 1]), server[|server| - 1];
      if last !in roster && !IsBot(contacts, last) then rest + [last] else rest
  }

  // --- What the lists hold --------------------------------------------------------------

  predicate NoRepeats(list: seq<Account>) {
    forall i, j :: 0 <= i < j < |list| ==> list[i] != list[j]
  }

  lemma {:induction false} KeptHolds(list: seq<Account>, server: seq<Account>, a: Account)
    ensures a in Kept(list, server) <==> a in list && a in server
  {
    if list != [] {
      KeptHolds(list[..|list| - 1], server, a);
      assert list == list[..|list| - 1] + [list[|list| - 1]];
    }
  }

  lemma {:induction false} WithBotsHolds(ids: seq<Account>, contacts: Contacts, server: seq<Account>, a: Account)
    ensures a in WithBots(ids, contacts, server) <==> a in ids || (a in server && IsBot(contacts, a))
  {
    if server != [] {
      WithBotsHolds(ids, contacts, server[..|server| - 1], a);
      assert server == server[..|server| - 1] + [server[|server| - 1]];
    }
  }

  lemma {:induction false} WithBotsRepeats(ids: seq<Account>, contacts: Contacts, server: seq<Account>)
    ensures NoRepeats(WithBots(ids, contacts, server)) <==> NoRepeats(ids)
  {
    if server != [] {
      var rest, last := WithBots(ids, contacts, server[..|server| - 1]), server[|server| - 1];
      WithBotsRepeats(ids, contacts, server[..|server| - 1]);
      if last !in rest {
        OneMore(rest, last);
      }
    }
  }

  lemma OneMore(list: seq<Account>, a: Account)
    requires a !in list
    ensures NoRepeats(list + [a]) <==> NoRepeats(list)
  {
    var longer := list + [a];
    assert forall i :: 0 <= i < |list| ==> longer[i] == list[i] && list[i] in list;
  }

  lemma {:induction false} UnverifiedHolds(roster: seq<Account>, contacts: Contacts, server: seq<Account>, a: Account)
    ensures a in Unverified(roster, contacts, server) <==> a in server && a !in roster && !IsBot(contacts, a)
  {
    if server != [] {
      UnverifiedHolds(roster, contacts, server[..|server| - 1], a);
      assert server == server[..|server| - 1] + [server[|server| - 1]];
    }
  }

  /** A message is sealed to oneself, to the known bots, and to whom both the signed roster and the server name. */
  lemma SealedTo(conv: Conversation, contacts: Contacts, me: Account, a: Account)
    ensures a in Sealing(conv, contacts, me) <==>
            || a == me
            || (a in conv.serverMembers && a in contacts && contacts[a].isBot)
            || (a in conv.serverMembers && (conv.roster.Some? ==> a in conv.roster.value))
  {
    KeptHolds(Base(conv), conv.serverMembers, a);
    WithBotsHolds(Kept(Base(conv), conv.serverMembers), contacts, conv.serverMembers, a);
  }

  /** Nobody is sealed to twice exactly when the roster names no current member twice. */
  lemma SealedOnce(conv: Conversation, contacts: Contacts, me: Account)
    ensures NoRepeats(Sealing(conv, contacts, me)) <==> NoRepeats(Kept(Base(conv), conv.serverMembers))
  {
    var kept := Kept(Base(conv), conv.serverMembers);
    var ids := WithBots(kept, contacts, conv.serverMembers);
    WithBotsRepeats(kept, contacts, conv.serverMembers);
    if me !in ids {
      OneMore(ids, me);
    }
  }

  /** A roster is taken as signed: one that repeats a member makes the message repeat it. */
  lemma RepeatedRosterRepeats(a: Account, me: Account, contacts: Contacts)
    ensures var conv := Conversation(Some([a, a]), [a]);
            !NoRepeats(Sealing(conv, contacts, me))
  {
    assert [a, a][..1] == [a] && [a][..0] == [];
    assert Kept([a], [a]) == [a];
    assert Kept([a, a], [a]) == [a, a];
    assert [a, a][0] == [a, a][1];
    SealedOnce(Conversation(Some([a, a]), [a]), contacts, me);
  }

  /** With a signed roster, every other server member is either sealed to or reported as unverified, never both. */
  lemma SealedOrUnverified(conv: Conversation, contacts: Contacts, me: Account, a: Account)
    requires conv.roster.Some? && a in conv.serverMembers && a != me
    ensures a in Sealing(conv, contacts, me) <==> a !in Unverified(conv.roster.value, contacts, conv.serverMembers)
  {
    SealedTo(conv, contacts, me, a);
    UnverifiedHolds(conv.roster.value, contacts, conv.serverMembers, a);
  }

  // --- As the client computes them ----------------------------------------------------------

  method SealingMembers(conv: Conversation, contacts: Contacts, me: Account) returns (ids: seq<Account>)
    ensures ids == Sealing(conv, contacts, me)
  {
    var list := Base(conv);
    ids := [];
    var i := 0;
    while i < |list|
      invariant 0 <= i <= |list| && ids == Kept(list[..i], conv.serverMembers)
    {
      assert list[..i + 1][..i] == list[..i];
      if list[i] in conv.serverMembers {
        ids := ids + [list[i]];
      }
      i := i + 1;
    }
    assert list[..|list|] == list;
    ghost var kept := ids;
    i := 0;
    while i < |conv.serverMembers|
      invariant 0 <= i <= |conv.serverMembers| && ids == WithBots(kept, contacts, conv.serverMembers[..i])
    {
      assert conv.serverMembers[..i + 1][..i] == conv.serverMembers[..i];
      var id := conv.serverMembers[i];
      if id !in ids && id in contacts && contacts[id].isBot {
        ids := ids + [id];
      }
      i := i + 1;
    }
    assert conv.serverMembers[..|conv.serverMembers|] == conv.serverMembers;
    if me !in ids {
      ids := ids + [me];
    }
  }

  /** Sealing needs a known, unchanged key for every member; the first one without stops it. */
  method RecipientsFor(conv: Conversation, contacts: Contacts, me: Account)
    returns (r: Result<seq<Recipient>, SealError>)
    ensures var ids := Sealing(conv, contacts, me);
            && (r.Ok? <==> forall a :: a in ids ==> a in contacts && !contacts[a].keysChanged)
            && (r.Ok? ==> |r.value| == |ids|
                          && forall i :: 0 <= i < |ids| ==>
                               ids[i] in contacts && r.value[i] == Recipient(ids[i], contacts[ids[i]].encPub))
            && (r.Err? ==>
                  exists i :: && 0 <= i < |ids|
                              && (forall j :: 0 <= j < i ==> ids[j] in contacts && !contacts[ids[j]].keysChanged)
                              && (ids[i] in contacts ==> contacts[ids[i]].keysChanged)
                              && r.error == if ids[i] in contacts then KeysChanged(ids[i]) else NoKeys(ids[i]))
  {
    var ids := SealingMembers(conv, contacts, me);
    var out: seq<Recipient> := [];
    var i := 0;
    hide Sealing;
    while i < |ids|
      invariant 0 <= i <= |ids| && |out| == i
      invariant forall j :: 0 <= j < i ==>
                  && ids[j] in contacts && !contacts[ids[j]].keysChanged
                  && out[j] == Recipient(ids[j], contacts[ids[j]].encPub)
    {
      var id := ids[i];
      if id !in contacts {
        return Err(NoKeys(id));
      }
      if contacts[id].keysChanged {
        return Err(KeysChanged(id));
      }
      out := out + [Recipient(id, contacts[id].encPub)];
      i := i + 1;
    }
    r := Ok(out);
  }
}
