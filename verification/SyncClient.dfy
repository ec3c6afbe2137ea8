/**
 The web client's copy of one conversation, updated in place: the message store,
 the list on screen and the conversation's own record.

 Decoding a row (its signature, decryption and parsing) is a fixed function of the
 row, so rows arrive here as entries. Previews, notifications, pending bubbles and
 the markRead request are not part of this model.
 */
module SyncClient {
  import opened Wrappers
  import opened History
  import opened Screen
  import opened Roster
  import opened Lines
  import ServerLog

  /** The stored messages a cutoff keeps. */
  ghost function KeptSince(store: Store, cutoff: int): Store {
    map s | s in store && store[s].serverTs >= cutoff :: store[s]
  }

  /** The messages that no retention timer has expired. */
  ghost function Unexpired(store: Store, timer: nat, limit: int, now: int): Store {
    map s | s in store && !ServerLog.Expired(store[s].serverTs, timer, limit, now) :: store[s]
  }

  /** Each timer that is set decides by age, to the millisecond; 0 sets none. */
  lemma TimersDecide(store: Store, timer: nat, limit: int, now: int, s: nat)
    ensures s in Unexpired(store, timer, limit, now) <==>
            && s in store
            && (timer == 0 || now - store[s].serverTs <= timer * 1000)
            && (limit <= 0 || now - store[s].serverTs <= limit * 1000)
    ensures s in Unexpired(store, timer, limit, now) ==> Unexpired(store, timer, limit, now)[s] == store[s]
  {}

  /** A cutoff keeps what a timer of that length has not expired. */
  lemma CutoffIsTimer(store: Store, seconds: nat, now: int)
    requires seconds > 0
    ensures KeptSince(store, now - seconds * 1000) == Unexpired(store, seconds, 0, now)
  {}

  /** The part of a store below a key. */
  ghost function Below(store: Store, bound: nat): Store {
    map s | s in store && s < bound :: store[s]
  }

  lemma BelowNext(store: Store, s: nat)
    ensures Below(store, s + 1) == if s in store then Below(store, s)[s := store[s]] else Below(store, s)
  {}

  lemma NothingBelow(store: Store)
    ensures Below(store, 0) == map[]
  {}

  lemma AllBelow(store: Store, bound: nat)
    requires forall s :: s in store ==> s < bound
    ensures Below(store, bound) == store
  {}

  class Client {
    const me: Account
    var joinedSeq: nat
    var syncedSeq: nat
    var lastSeq: nat
    var readSeq: nat
    var roster: Option<seq<Account>>
    var rosterSeq: nat
    var name: string
    var retentionSeconds: nat
    /** The server-wide limit, in days. */
    var retentionDays: int
    var store: Store
    var loaded: Option<seq<Line>>

    ghost predicate Valid()
      reads this
    {
      && (loaded.Some? ==> Sorted(loaded.value))
      && (forall s :: s in store ==> s <= lastSeq)
    }

    ghost function Shown(): View
      reads this
    {
      View(store, if loaded.Some? then Some(AsStore(loaded.value)) else None)
    }

    ghost function Record(): Meta
      reads this
    {
      Meta(syncedSeq, lastSeq, readSeq, roster, rosterSeq, name)
    }

    /** The device has just learned of the conversation. */
    constructor (me: Account, joined: nat, last: nat, read: nat, retention: nat, days: int)
      ensures Valid() && this.me == me && joinedSeq == joined && Shown() == View(map[], None)
      ensures Record() == Meta(joined, last, read, None, 0, "")
      ensures retentionSeconds == retention && retentionDays == days
    {
      this.me := me;
      joinedSeq, syncedSeq, lastSeq, readSeq := joined, joined, last, read;
      roster, rosterSeq, name := None, 0, "";
      retentionSeconds, retentionDays := retention, days;
      store, loaded := map[], None;
    }

    // --- The device's own database -------------------------------------------------------

    method PutMessage(at: nat, m: Stored)
      modifies `store
      ensures store == old(store)[at := m]
    {
      store := store[at := m];
    }

    method GetMessage(at: nat) returns (m: Option<Stored>)
      ensures m == if at in store then Some(store[at]) else None
    {
      m := if at in store then Some(store[at]) else None;
    }

    /** The first message in key order with this author and client id. */
    method MessageByClientId(sender: Account, ref: ClientId) returns (at: Option<nat>)
      requires Valid()
      ensures at == Original(store, sender, ref)
    {
      var s := 0;
      while s <= lastSeq
        invariant forall t :: 0 <= t < s ==> !Matches(store, t, sender, ref)
      {
        if s in store && store[s].clientId == ref && store[s].sender == sender {
          assert Matches(store, s, sender, ref);
          return Some(s);
        }
        s := s + 1;
      }
      assert forall t: nat :: !Matches(store, t, sender, ref);
      at := None;
    }

    method DeleteStoredMessage(at: nat)
      modifies `store
      ensures store == old(store) - {at}
    {
      store := store - {at};
    }

    method MessagesFor() returns (list: seq<Line>)
      requires Valid()
      ensures Sorted(list) && AsStore(list) == store
    {
      hide AsStore, Has, Below;
      list := [];
      HasNone(0);
      assert Below(store, 0) == map[] by {
        NothingBelow(store);
      }
      var s := 0;
      while s <= lastSeq
        invariant 0 <= s <= lastSeq + 1
        invariant Sorted(list) && forall i :: 0 <= i < |list| ==> list[i].at < s
        invariant AsStore(list) == Below(store, s)
      {
        BelowNext(store, s);
        if s in store {
          AsStoreLast(list, Line(s, store[s]));
          SortedLast(list, Line(s, store[s]));
          list := list + [Line(s, store[s])];
        }
        s := s + 1;
      }
      AllBelow(store, s);
    }

    /** Deletes messages older than a server time and counts them. */
    method DeleteMessagesBefore(cutoff: int) returns (deleted: nat)
      requires Valid()
      modifies `store
      ensures store == KeptSince(old(store), cutoff)
      ensures deleted == |old(store)| - |store|
    {
      deleted := 0;
      var keys := store.Keys;
      while keys != {}
        invariant keys <= store.Keys <= old(store).Keys
        invariant forall s :: s in store ==> store[s] == old(store)[s]
        invariant forall s :: s in old(store) && s !in keys ==> (s in store <==> old(store)[s].serverTs >= cutoff)
        invariant deleted + |store| == |old(store)|
        decreases |keys|
      {
        var s :| s in keys;
        if store[s].serverTs < cutoff {
          assert |store - {s}| == |store| - 1 by {
            assert (store - {s}).Keys == store.Keys - {s};
          }
          store := store - {s};
          deleted := deleted + 1;
        }
        keys := keys - {s};
      }
      assert store == KeptSince(old(store), cutoff);
    }

    // --- Applying rows ---------------------------------------------------------------------

    /** Rewrites the text of a stored message and its mark, in the store and on screen. */
    method SetMessageBody(at: nat, body: string, edited: bool)
      requires Valid()
      modifies `store, `loaded
      ensures Valid()
      ensures var before := old(Shown());
              Shown() == if at in before.store && before.store[at].payload.Text?
                         then var updated := Rewritten(before.store[at], body).(edited := edited);
                              View(before.store[at := updated],
                                   if before.shown.Some? && at in before.shown.value
                                   then Some(before.shown.value[at := updated]) else before.shown)
                         else before
    {
      var m := GetMessage(at);
      if m.None? || !m.value.payload.Text? {
        return;
      }
      var updated := m.value.(payload := m.value.payload.(body := body), edited := edited);
      PutMessage(at, updated);
      if loaded.Some? {
        var list := Replace(loaded.value, at, updated);
        loaded := Some(list);
      }
    }

    method ApplyEdit(at: nat, e: Entry)
      requires Valid() && e.Message? && IsEdit(e)
      modifies `store, `loaded
      ensures Valid() && Shown() == StepView(old(Shown()), at, e)
    {
      if e.payload.MalformedEdit? {
        return;
      }
      var original := MessageByClientId(e.sender, e.payload.ref);
      if original.None? || !store[original.value].payload.Text? || original.value >= at {
        return;
      }
      SetMessageBody(original.value, e.payload.newBody, true);
    }

    method AdvanceSilently(at: nat)
      modifies `syncedSeq, `lastSeq, `readSeq
      ensures Record() == Silently(old(Record()), at)
    {
      syncedSeq, lastSeq := Max(syncedSeq, at), Max(lastSeq, at);
      if readSeq >= at - 1 && readSeq < at {
        readSeq := at;
      }
    }

    method RemoveLocalMessage(at: nat)
      requires Valid()
      modifies `store, `loaded
      ensures Valid() && Shown() == Without(old(Shown()), at)
    {
      DeleteStoredMessage(at);
      if loaded.Some? {
        hide AsStore, Sorted;
        var keep := (s: nat, m: Stored) => s != at;
        var list := Filter(loaded.value, keep);
        assert Filtered(AsStore(loaded.value), keep) == AsStore(loaded.value) - {at};
        loaded := Some(list);
      }
    }

    method ApplyDeletion(at: nat, target: nat)
      requires Valid()
      modifies `store, `loaded, `syncedSeq, `lastSeq, `readSeq
      ensures Valid() && Shown() == StepView(old(Shown()), at, Deletion(target))
      ensures Record() == MetaStep(me, old(Record()), at, Deletion(target))
    {
      RemoveLocalMessage(target);
      AdvanceSilently(at);
    }

    /** The timer in force, in seconds; 0 keeps messages for ever. */
    method EffectiveRetention() returns (seconds: nat)
      ensures seconds == ServerLog.EffectiveRetention(retentionSeconds, retentionDays * 86400)
    {
      var limit := retentionDays * 86400;
      seconds := retentionSeconds;
      if limit > 0 && (seconds == 0 || seconds > limit) {
        seconds := limit;
      }
    }

    method IsExpired(serverTs: int, now: int) returns (expired: bool)
      ensures expired == ServerLog.Expired(serverTs, retentionSeconds, retentionDays * 86400, now)
    {
      var r := EffectiveRetention();
      expired := r > 0 && serverTs < now - r * 1000;
    }

    method ApplyStored(at: nat, e: Entry, now: int)
      requires Valid() && e.Message?
      modifies this`store, this`loaded, this`syncedSeq, this`lastSeq, this`readSeq
      modifies this`roster, this`rosterSeq, this`name
      ensures Valid()
      ensures if ServerLog.Expired(e.serverTs, retentionSeconds, retentionDays * 86400, now)
              then Shown() == old(Shown()) && Record() == old(Record())
              else Shown() == StepView(old(Shown()), at, e) && Record() == MetaStep(me, old(Record()), at, e)
    {
      var expired := IsExpired(e.serverTs, now);
      if expired {
        return;
      }
      hide StepView;
      if IsEdit(e) {
        ApplyEdit(at, e);
        AdvanceSilently(at);
        return;
      }
      ListMessage(at, e);
      UpdateRecord(at, e);
    }

    /** Stores a message, and lists it unless a message with its number is listed. */
    method ListMessage(at: nat, e: Entry)
      requires (loaded.Some? ==> Sorted(loaded.value)) && e.Message? && !IsEdit(e)
      modifies `store, `loaded
      ensures loaded.Some? ==> Sorted(loaded.value)
      ensures store.Keys == old(store).Keys + {at}
      ensures Shown() == StepView(old(Shown()), at, e)
    {
      hide AsStore, Has, Sorted, Hit;
      PutMessage(at, Posted(e));
      if loaded.Some? {
        ListedInStore(loaded.value, at);
        var listed := IsListed(loaded.value, at);
        if !listed {
          var list := Insert(loaded.value, at, Posted(e));
          loaded := Some(list);
        }
      }
    }

    /** What a message that is not an edit does to the conversation's record. */
    method UpdateRecord(at: nat, e: Entry)
      requires e.Message? && !IsEdit(e)
      modifies this`syncedSeq, this`lastSeq, this`readSeq, this`roster, this`rosterSeq, this`name
      ensures Record() == MetaStep(me, old(Record()), at, e)
    {
      syncedSeq, lastSeq := Max(syncedSeq, at), Max(lastSeq, at);
      if at > rosterSeq {
        match e.payload
        case ConvCreate(title, members) =>
          if title != "" {
            name := title;
          }
          roster := Some(members);
          rosterSeq := at;
        case Membership(members) =>
          roster := Some(members);
          rosterSeq := at;
        case Rename(title) =>
          name := title;
        case _ =>
      }
      if e.sender == me && at > readSeq {
        readSeq := at;
      }
    }

    /** A row from the server: a message or a deletion record. */
    method HandleIncoming(at: nat, e: Entry, now: int)
      requires Valid()
      modifies this`store, this`loaded, this`syncedSeq, this`lastSeq, this`readSeq
      modifies this`roster, this`rosterSeq, this`name
      ensures Valid()
      ensures if e.Message? && ServerLog.Expired(e.serverTs, retentionSeconds, retentionDays * 86400, now)
              then Shown() == old(Shown()) && Record() == old(Record())
              else Shown() == StepView(old(Shown()), at, e) && Record() == MetaStep(me, old(Record()), at, e)
    {
      if e.Deletion? {
        ApplyDeletion(at, e.target);
      } else {
        ApplyStored(at, e, now);
      }
    }

    // --- Retention and the screen ----------------------------------------------------------------

    /** Deletes expired messages from the store and the screen. */
    method PurgeExpired(now: int) returns (deleted: nat)
      requires Valid()
      modifies `store, `loaded
      ensures Valid()
      ensures store == Unexpired(old(store), retentionSeconds, retentionDays * 86400, now)
      ensures deleted == |old(store)| - |store|
      ensures loaded.Some? <==> old(loaded).Some?
      ensures loaded.Some? ==>
        AsStore(loaded.value) == Unexpired(AsStore(old(loaded).value), retentionSeconds, retentionDays * 86400, now)
    {
      hide AsStore, Sorted;
      deleted := 0;
      var r := EffectiveRetention();
      if r <= 0 {
        assert store == Unexpired(store, retentionSeconds, retentionDays * 86400, now);
        return;
      }
      var cutoff := now - r * 1000;
      deleted := DeleteMessagesBefore(cutoff);
      assert store == Unexpired(old(store), retentionSeconds, retentionDays * 86400, now);
      if loaded.Some? {
        var keep := (s: nat, m: Stored) => m.serverTs >= cutoff;
        var list := Filter(loaded.value, keep);
        assert Filtered(AsStore(loaded.value), keep)
            == Unexpired(AsStore(loaded.value), retentionSeconds, retentionDays * 86400, now);
        loaded := Some(list);
      }
    }

    /** Opening the conversation lists what is stored, once. */
    method EnsureMessagesLoaded()
      requires Valid()
      modifies `loaded
      ensures Valid() && Shown() == View(store, if old(loaded).Some? then old(Shown()).shown else Some(store))
    {
      if loaded.Some? {
        return;
      }
      var list := MessagesFor();
      loaded := Some(list);
    }
  }

  lemma ListedInStore(list: seq<Line>, at: nat)
    ensures Has(list, at) <==> at in AsStore(list)
  {}

  method IsListed(list: seq<Line>, at: nat) returns (yes: bool)
    ensures yes <==> Has(list, at)
  {
    var i := 0;
    while i < |list|
      invariant 0 <= i <= |list|
      invariant forall j :: 0 <= j < i ==> list[j].at != at
    {
      if list[i].at == at {
        return true;
      }
      i := i + 1;
    }
    yes := false;
  }
}
