/** What a retention purge leaves, on the server and on a device. */
module Retention {
  import opened ServerLog

  /** Older than some timer that is set, or not: that alone decides whether a row stays. */
  lemma PurgeDecides(t: Tables, now: Millis, limit: int, k: Key)
    requires k in t.messages && k.0 in t.convs
    ensures var timer := t.convs[k.0].retention;
            var age := now - t.messages[k].serverTs;
            && (k in Purge(t, now, limit).messages <==>
                  (timer == 0 || age <= timer * 1000) && (limit <= 0 || age <= limit * 1000))
            && (k in Purge(t, now, limit).messages ==> Purge(t, now, limit).messages[k] == t.messages[k])
  {}

  /** A second purge at the same time, or an earlier one, removes nothing. */
  lemma PurgeTwice(t: Tables, now: Millis, earlier: Millis, limit: int)
    requires earlier <= now
    ensures Purge(Purge(t, now, limit), earlier, limit) == Purge(t, now, limit)
  {
    var p := Purge(t, now, limit);
    forall k | k in p.messages && k.0 in p.convs
      ensures !Expired(p.messages[k].serverTs, p.convs[k.0].retention, limit, earlier)
    {
      assert !Expired(t.messages[k].serverTs, t.convs[k.0].retention, limit, now);
      ExpiredLater(t.messages[k].serverTs, t.convs[k.0].retention, limit, earlier, now);
    }
    assert Purge(p, earlier, limit).messages == p.messages;
  }

  lemma ExpiredLater(serverTs: Millis, timer: nat, limit: int, now: Millis, later: Millis)
    requires now <= later
    ensures Expired(serverTs, timer, limit, now) ==> Expired(serverTs, timer, limit, later)
  {}

  /** A later purge removes everything an earlier one would, and purging in between makes no difference. */
  lemma LaterPurgeRemovesMore(t: Tables, now: Millis, later: Millis, limit: int)
    requires now <= later
    ensures Purge(t, later, limit).messages.Keys <= Purge(t, now, limit).messages.Keys
    ensures Purge(Purge(t, now, limit), later, limit) == Purge(t, later, limit)
  {
    forall k | k in t.messages && k.0 in t.convs && Expired(t.messages[k].serverTs, t.convs[k.0].retention, limit, now)
      ensures Expired(t.messages[k].serverTs, t.convs[k.0].retention, limit, later)
    {
      ExpiredLater(t.messages[k].serverTs, t.convs[k.0].retention, limit, now, later);
    }
    hide Expired;
    assert Purge(Purge(t, now, limit), later, limit).messages == Purge(t, later, limit).messages;
  }

  // --- Many purges ---------------------------------------------------------------------

  /** A purge at a time, with the server-wide limit set then. */
  datatype Round = Round(now: Millis, limit: int)

  function Purged(t: Tables, rounds: seq<Round>): Tables
    decreases |rounds|
  {
    if rounds == [] then t else Purged(Purge(t, rounds[0].now, rounds[0].limit), rounds[1..])
  }

  /** After any purges the messages left are those that none of them expired, whatever their order and limits. */
  lemma {:induction false} PurgesCollapse(t: Tables, rounds: seq<Round>, k: Key)
    ensures
      var p := Purged(t, rounds);
      && p.convs == t.convs && p.members == t.members && p.log == t.log
      && (k in p.messages <==>
            k in t.messages && forall i :: 0 <= i < |rounds| && k.0 in t.convs ==>
              !Expired(t.messages[k].serverTs, t.convs[k.0].retention, rounds[i].limit, rounds[i].now))
      && (k in p.messages ==> p.messages[k] == t.messages[k])
    decreases |rounds|
  {
    if rounds != [] {
      PurgesCollapse(Purge(t, rounds[0].now, rounds[0].limit), rounds[1..], k);
      hide Expired, Purged;
      assert forall i :: 0 < i < |rounds| ==> rounds[i] == rounds[1..][i - 1];
      assert forall i :: 0 <= i < |rounds[1..]| ==> rounds[1..][i] == rounds[i + 1];
    }
  }

  /** While the clock does not go back and the limit stays, only the last of them counts. */
  lemma {:induction false} LastPurgeCounts(t: Tables, rounds: seq<Round>)
    requires rounds != []
    requires forall i :: 0 <= i < |rounds| ==>
               rounds[i].now <= rounds[|rounds| - 1].now && rounds[i].limit == rounds[|rounds| - 1].limit
    ensures Purged(t, rounds) == Purge(t, rounds[|rounds| - 1].now, rounds[|rounds| - 1].limit)
    decreases |rounds|
  {
    var first, last := rounds[0], rounds[|rounds| - 1];
    if |rounds| > 1 {
      LastPurgeCounts(Purge(t, first.now, first.limit), rounds[1..]);
      LaterPurgeRemovesMore(t, first.now, last.now, last.limit);
      hide Purge;
    } else {
      assert rounds[1..] == [];
    }
  }
}
