/** Recording when a device was last seen, at most once a minute, in a table that forgets after an hour. */
module LastSeen {

  const MINUTE := 60.0
  const HOUR := 3600.0
  const MANY := 10000

  type Touched = map<string, real>

  function Kept(touched: Touched, now: real): Touched {
    map d | d in touched && now - touched[d] <= HOUR :: touched[d]
  }

  predicate Recent(touched: Touched, device: string, now: real) {
    device in touched && now - touched[device] < MINUTE
  }

  function Next(touched: Touched, device: string, now: real): Touched {
    if Recent(touched, device, now) then touched
    else
      var added := touched[device := now];
      if |added| > MANY then Kept(added, now) else added
  }

  /** Of the other devices a visit changes none, and forgets those unseen for an hour only beyond ten thousand. */
  lemma VisitForgets(touched: Touched, device: string, now: real, d: string)
    requires d != device && !Recent(touched, device, now)
    ensures
      var r := Next(touched, device, now);
      && (d in r <==> d in touched && (|touched[device := now]| <= 10000 || now - touched[d] <= 3600.0))
      && (d in r ==> r[d] == touched[d])
  {}

  class Authenticator {
    var touched: Touched

    constructor ()
      ensures touched == map[]
    {
      touched := map[];
    }

    /** `written` tells whether the store was updated. */
    method Touch(device: string, now: real) returns (written: bool)
      modifies this
      ensures touched == Next(old(touched), device, now)
      ensures written <==> !Recent(old(touched), device, now)
    {
      if device in touched && now - touched[device] < MINUTE {
        return false;
      }
      touched := touched[device := now];
      if |touched| > MANY {
        ghost var added := touched;
        var ids := touched.Keys;
        while ids != {}
          invariant ids <= added.Keys
          invariant forall d :: d in ids ==> d in touched
          invariant forall d :: d in touched ==> d in added && touched[d] == added[d]
          invariant forall d :: d in added && d !in ids ==> (d in touched <==> now - added[d] <= HOUR)
          decreases |ids|
        {
          var d :| d in ids;
          if now - touched[d] > HOUR {
            touched := touched - {d};
          }
          ids := ids - {d};
        }
      }
      written := true;
    }
  }

  datatype Visit = Visit(device: string, time: real)

  datatype Entry = Entry(device: string, time: real, written: bool)

  datatype Run = Run(touched: Touched, log: seq<Entry>)

  function Played(visits: seq<Visit>): (r: Run)
    ensures |r.log| == |visits|
    ensures forall i :: 0 <= i < |visits| ==> r.log[i].device == visits[i].device && r.log[i].time == visits[i].time
  {
    if visits == [] then Run(map[], [])
    else
      var before, v := Played(visits[..|visits| - 1]), visits[|visits| - 1];
      Run(Next(before.touched, v.device, v.time),
          before.log + [Entry(v.device, v.time, !Recent(before.touched, v.device, v.time))])
  }

  predicate InOrder(visits: seq<Visit>) {
    forall i, j :: 0 <= i < j < |visits| ==> visits[i].time <= visits[j].time
  }

  /** Nothing was written for the device in the last minute. */
  predicate Due(log: seq<Entry>, device: string, now: real) {
    forall j :: 0 <= j < |log| && log[j].device == device && log[j].written ==> now - log[j].time >= 60.0
  }

  /** The reference, which forgets nothing: a visit is written exactly when it is due. */
  predicate OncePerMinute(log: seq<Entry>) {
    forall i :: 0 <= i < |log| ==> (log[i].written <==> Due(log[..i], log[i].device, log[i].time))
  }

  /** The table holds the last write of every device written within the hour. */
  predicate Tracks(touched: Touched, log: seq<Entry>, now: real) {
    && (forall d :: d in touched ==>
          exists j :: 0 <= j < |log| && log[j] == Entry(d, touched[d], true))
    && (forall j :: 0 <= j < |log| && log[j].written ==>
          now - log[j].time > HOUR || (log[j].device in touched && log[j].time <= touched[log[j].device]))
  }

  lemma TracksDecides(touched: Touched, log: seq<Entry>, device: string, t0: real, now: real)
    requires Tracks(touched, log, t0) && t0 <= now
    ensures Recent(touched, device, now) <==> !Due(log, device, now)
  {}

  lemma TracksNext(touched: Touched, log: seq<Entry>, device: string, t0: real, now: real)
    requires Tracks(touched, log, t0) && t0 <= now && forall j :: 0 <= j < |log| ==> log[j].time <= now
    ensures Tracks(Next(touched, device, now), log + [Entry(device, now, !Recent(touched, device, now))], now)
  {
    var e := Entry(device, now, !Recent(touched, device, now));
    var longer := log + [e];
    var after := Next(touched, device, now);
    assert longer[|log|] == e;
    forall d | d in after ensures exists j :: 0 <= j < |longer| && longer[j] == Entry(d, after[d], true) {
      if d in touched && after[d] == touched[d] {
        var j :| 0 <= j < |log| && log[j] == Entry(d, touched[d], true);
        assert longer[j] == log[j];
      }
    }
  }

  /** Over every run with a steady clock, forgetting is never noticed and no device is written twice within a minute. */
  lemma {:induction false} WritesExactlyWhenDue(visits: seq<Visit>)
    requires InOrder(visits)
    ensures OncePerMinute(Played(visits).log)
    ensures forall t: real :: (forall i :: 0 <= i < |visits| ==> visits[i].time <= t) ==>
              Tracks(Played(visits).touched, Played(visits).log, t)
  {
    if |visits| > 0 {
      var n := |visits| - 1;
      var v, before := visits[n], Played(visits[..n]);
      var e := Entry(v.device, v.time, !Recent(before.touched, v.device, v.time));
      WritesExactlyWhenDue(visits[..n]);
      assert Played(visits) == Run(Next(before.touched, v.device, v.time), before.log + [e]);
      assert Tracks(before.touched, before.log, v.time);
      assert forall j :: 0 <= j < |before.log| ==> before.log[j].time <= v.time;
      hide Next, Recent, Due, Tracks, Played, InOrder, OncePerMinute;
      TracksDecides(before.touched, before.log, v.device, v.time, v.time);
      TracksNext(before.touched, before.log, v.device, v.time, v.time);
      LongerLog(before.log, e);
      forall t: real | forall i :: 0 <= i < |visits| ==> visits[i].time <= t
        ensures Tracks(Played(visits).touched, Played(visits).log, t)
      {
        TracksLater(Played(visits).touched, Played(visits).log, v.time, t);
      }
    }
  }

  lemma LongerLog(log: seq<Entry>, e: Entry)
    requires OncePerMinute(log) && (e.written <==> Due(log, e.device, e.time))
    ensures OncePerMinute(log + [e])
  {
    var longer := log + [e];
    hide Due;
    forall i | 0 <= i < |longer| ensures longer[i].written <==> Due(longer[..i], longer[i].device, longer[i].time) {
      assert longer[..i] == log[..i];
    }
  }

  lemma TracksLater(touched: Touched, log: seq<Entry>, now: real, later: real)
    requires Tracks(touched, log, now) && now <= later
    ensures Tracks(touched, log, later)
  {}
}
