/** The challenges of a password change: at most one a device, single use and short lived. */
module Challenges {
  import opened Bytes

  const CHALLENGE_SIZE := 32
  const MANY := 10000

  type Value = b: Bytes | |b| == 32 witness seq(32, _ => 0)

  datatype Pending = Pending(value: Value, expires: real)

  type Slots = map<string, Pending>

  function Swept(slots: Slots, now: real): Slots {
    map d | d in slots && now <= slots[d].expires :: slots[d]
  }

  function Issued(slots: Slots, ttl: real, device: string, value: Value, now: real): Slots {
    (if |slots| > MANY then Swept(slots, now) else slots)[device := Pending(value, now + ttl)]
  }

  predicate Takes(slots: Slots, device: string, value: Bytes, now: real) {
    |value| == CHALLENGE_SIZE && device in slots && now <= slots[device].expires && slots[device].value == value
  }

  function Taken(slots: Slots, device: string, value: Bytes, now: real): Slots {
    if |value| != CHALLENGE_SIZE || device !in slots then slots
    else if now > slots[device].expires || slots[device].value == value then slots - {device}
    else slots
  }

  /** Of the other challenges issuing one changes none, and drops expired ones only beyond ten thousand. */
  lemma IssuingForgets(slots: Slots, ttl: real, device: string, value: Value, now: real, d: string)
    requires d != device
    ensures
      var r := Issued(slots, ttl, device, value, now);
      && (d in r <==> d in slots && (|slots| <= 10000 || now <= slots[d].expires))
      && (d in r ==> r[d] == slots[d])
  {}

  class ChallengeStore {
    const ttl: real
    var byDevice: Slots

    constructor (ttl: real)
      ensures this.ttl == ttl && byDevice == map[]
    {
      this.ttl := ttl;
      byDevice := map[];
    }

    /** `value` is what the random source gave. */
    method Issue(device: string, value: Value, now: real) returns (expires: real)
      modifies this
      ensures expires == now + ttl && byDevice == Issued(old(byDevice), ttl, device, value, now)
    {
      expires := now + ttl;
      if |byDevice| > MANY {
        var ids := byDevice.Keys;
        while ids != {}
          invariant ids <= old(byDevice).Keys
          invariant forall d :: d in ids ==> d in byDevice
          invariant forall d :: d in byDevice ==> d in old(byDevice) && byDevice[d] == old(byDevice)[d]
          invariant forall d :: d in old(byDevice) && d !in ids ==> (d in byDevice <==> now <= old(byDevice)[d].expires)
          decreases |ids|
        {
          var d :| d in ids;
          if now > byDevice[d].expires {
            byDevice := byDevice - {d};
          }
          ids := ids - {d};
        }
        assert byDevice == Swept(old(byDevice), now);
      }
      byDevice := byDevice[device := Pending(value, expires)];
    }

    method Take(device: string, value: Bytes, now: real) returns (ok: bool)
      modifies this
      ensures ok == Takes(old(byDevice), device, value, now)
      ensures byDevice == Taken(old(byDevice), device, value, now)
    {
      if |value| != CHALLENGE_SIZE {
        return false;
      }
      if device !in byDevice {
        return false;
      }
      var p := byDevice[device];
      if now > p.expires {
        byDevice := byDevice - {device};
        return false;
      }
      if value != p.value {
        return false;
      }
      byDevice := byDevice - {device};
      ok := true;
    }

    method Forget(device: string)
      modifies this
      ensures byDevice == old(byDevice) - {device}
    {
      byDevice := byDevice - {device};
    }
  }

  // --- Whole runs against the log of what was done ------------------------------------------

  datatype Op =
    | Issue(device: string, value: Value)
    | Take(device: string, guess: Bytes)
    | Forget(device: string)

  /** An operation, when it happened, and whether it was a take that succeeded. */
  datatype Done = Done(op: Op, time: real, took: bool)

  datatype Step = Step(op: Op, time: real)

  datatype Run = Run(slots: Slots, log: seq<Done>)

  function Played(ttl: real, steps: seq<Step>): (r: Run)
    ensures |r.log| == |steps|
    ensures forall i :: 0 <= i < |steps| ==> r.log[i].op == steps[i].op && r.log[i].time == steps[i].time
  {
    if steps == [] then Run(map[], [])
    else
      var before, s := Played(ttl, steps[..|steps| - 1]), steps[|steps| - 1];
      match s.op
      case Issue(d, v) =>
        Run(Issued(before.slots, ttl, d, v, s.time), before.log + [Done(s.op, s.time, false)])
      case Take(d, g) =>
        Run(Taken(before.slots, d, g, s.time), before.log + [Done(s.op, s.time, Takes(before.slots, d, g, s.time))])
      case Forget(d) =>
        Run(before.slots - {d}, before.log + [Done(s.op, s.time, false)])
  }

  predicate InOrder(steps: seq<Step>) {
    forall i, j :: 0 <= i < j < |steps| ==> steps[i].time <= steps[j].time
  }

  /** Step i issued challenge p, and it is the device's newest, unspent and not forgotten. */
  predicate Live(log: seq<Done>, ttl: real, i: int, device: string, p: Pending) {
    && 0 <= i < |log| && log[i].op.Issue? && log[i].op.device == device
    && p == Pending(log[i].op.value, log[i].time + ttl)
    && forall j :: i < j < |log| && log[j].op.device == device ==> log[j].op.Take? && !log[j].took
  }

  /** The reference: one slot a device, no sweeping, wrong guesses ignored. */
  ghost predicate Usable(log: seq<Done>, ttl: real, device: string, guess: Bytes, now: real) {
    exists i, p :: Live(log, ttl, i, device, p) && p.value == guess && now <= p.expires
  }

  ghost predicate Exact(log: seq<Done>, ttl: real) {
    forall i :: 0 <= i < |log| ==>
      (log[i].took <==> log[i].op.Take? && Usable(log[..i], ttl, log[i].op.device, log[i].op.guess, log[i].time))
  }

  /** A slot stands for the live challenge; one that is missing has expired. */
  ghost predicate Tracks(slots: Slots, log: seq<Done>, ttl: real, now: real) {
    && (forall d :: d in slots ==> exists i :: Live(log, ttl, i, d, slots[d]))
    && (forall i, d, p :: Live(log, ttl, i, d, p) ==> now > p.expires || (d in slots && slots[d] == p))
  }

  /** One more step leaves live what it does not touch, and makes live what it issues. */
  lemma LiveStep(log: seq<Done>, ttl: real, x: Done, i: int, d: string, p: Pending)
    ensures Live(log + [x], ttl, i, d, p) <==>
            || (Live(log, ttl, i, d, p) && (x.op.device != d || (x.op.Take? && !x.took)))
            || (i == |log| && x.op.Issue? && x.op.device == d && p == Pending(x.op.value, x.time + ttl))
  {
    var longer := log + [x];
    assert longer[|log|] == x;
    assert forall j :: 0 <= j < |log| ==> longer[j] == log[j];
  }

  lemma TracksDecides(slots: Slots, log: seq<Done>, ttl: real, t0: real, d: string, g: Bytes, now: real)
    requires Tracks(slots, log, ttl, t0) && t0 <= now
    ensures Takes(slots, d, g, now) <==> Usable(log, ttl, d, g, now)
  {
    hide Live;
    if Usable(log, ttl, d, g, now) {
      var i, p :| Live(log, ttl, i, d, p) && p.value == g && now <= p.expires;
      assert d in slots && slots[d] == p;
    }
  }

  function After(slots: Slots, ttl: real, s: Step): Slots {
    match s.op
    case Issue(d, v) => Issued(slots, ttl, d, v, s.time)
    case Take(d, g) => Taken(slots, d, g, s.time)
    case Forget(d) => slots - {d}
  }

  function Entry(slots: Slots, s: Step): Done {
    Done(s.op, s.time, s.op.Take? && Takes(slots, s.op.device, s.op.guess, s.time))
  }

  /** Every slot after a step stands for a live challenge. */
  lemma SlotsStand(slots: Slots, log: seq<Done>, ttl: real, t0: real, s: Step, d: string)
    requires Tracks(slots, log, ttl, t0) && t0 <= s.time && d in After(slots, ttl, s)
    ensures exists i :: Live(log + [Entry(slots, s)], ttl, i, d, After(slots, ttl, s)[d])
  {
    var x, p := Entry(slots, s), After(slots, ttl, s)[d];
    hide Live;
    if s.op.Issue? && s.op.device == d {
      LiveStep(log, ttl, x, |log|, d, p);
    } else {
      var i :| Live(log, ttl, i, d, slots[d]);
      LiveStep(log, ttl, x, i, d, p);
    }
  }

  /** Every live challenge after a step has its slot or has expired. */
  lemma LiveHaveSlots(slots: Slots, log: seq<Done>, ttl: real, t0: real, s: Step, i: int, d: string, p: Pending)
    requires Tracks(slots, log, ttl, t0) && t0 <= s.time && Live(log + [Entry(slots, s)], ttl, i, d, p)
    ensures s.time > p.expires || (d in After(slots, ttl, s) && After(slots, ttl, s)[d] == p)
  {
    hide Live;
    LiveStep(log, ttl, Entry(slots, s), i, d, p);
  }

  lemma TracksNext(slots: Slots, log: seq<Done>, ttl: real, t0: real, s: Step)
    requires Tracks(slots, log, ttl, t0) && t0 <= s.time
    ensures Tracks(After(slots, ttl, s), log + [Entry(slots, s)], ttl, s.time)
  {
    hide After, Entry, Live;
    forall d | d in After(slots, ttl, s)
      ensures exists i :: Live(log + [Entry(slots, s)], ttl, i, d, After(slots, ttl, s)[d])
    {
      SlotsStand(slots, log, ttl, t0, s, d);
    }
    forall i, d, p | Live(log + [Entry(slots, s)], ttl, i, d, p)
      ensures s.time > p.expires || (d in After(slots, ttl, s) && After(slots, ttl, s)[d] == p)
    {
      LiveHaveSlots(slots, log, ttl, t0, s, i, d, p);
    }
  }

  lemma TracksLater(slots: Slots, log: seq<Done>, ttl: real, now: real, later: real)
    requires Tracks(slots, log, ttl, now) && now <= later
    ensures Tracks(slots, log, ttl, later)
  {
    hide Live;
  }

  /**
   Over every run with a steady clock a take succeeds exactly when its value is the
   device's newest challenge, still unexpired, not forgotten and not taken before.
   Sweeps and wrong guesses never show.
   */
  lemma {:induction false} AnswersExactly(ttl: real, steps: seq<Step>)
    requires InOrder(steps)
    ensures Exact(Played(ttl, steps).log, ttl)
    ensures forall t: real :: (forall i :: 0 <= i < |steps| ==> steps[i].time <= t) ==>
              Tracks(Played(ttl, steps).slots, Played(ttl, steps).log, ttl, t)
  {
    var r := Played(ttl, steps);
    if |steps| > 0 {
      var n := |steps| - 1;
      var s, before := steps[n], Played(ttl, steps[..n]);
      AnswersExactly(ttl, steps[..n]);
      assert r == Run(After(before.slots, ttl, s), before.log + [Entry(before.slots, s)]);
      assert Tracks(before.slots, before.log, ttl, s.time);
      hide Tracks, Usable, Played, After, Takes;
      TracksNext(before.slots, before.log, ttl, s.time, s);
      if s.op.Take? {
        TracksDecides(before.slots, before.log, ttl, s.time, s.op.device, s.op.guess, s.time);
      }
      assert r.log[..n] == before.log;
      forall i | 0 <= i < |r.log|
        ensures r.log[i].took <==>
                r.log[i].op.Take? && Usable(r.log[..i], ttl, r.log[i].op.device, r.log[i].op.guess, r.log[i].time)
      {
        assert i < n ==> r.log[..i] == before.log[..i];
      }
      forall t: real | forall i :: 0 <= i < |steps| ==> steps[i].time <= t ensures Tracks(r.slots, r.log, ttl, t) {
        TracksLater(r.slots, r.log, ttl, s.time, t);
      }
    }
  }

  /** A challenge is taken at most once: between two takes of a device there is another issue. */
  lemma TakenOnce(log: seq<Done>, ttl: real, j: nat, k: nat)
    requires Exact(log, ttl) && j < k < |log| && log[j].took && log[k].took && log[j].op.device == log[k].op.device
    ensures exists i :: j < i < k && log[i].op.Issue? && log[i].op.device == log[k].op.device
                        && log[i].op.value == log[k].op.guess && log[k].time <= log[i].time + ttl
  {
    var i, p :| Live(log[..k], ttl, i, log[k].op.device, p) && p.value == log[k].op.guess && log[k].time <= p.expires;
    assert log[..k][i] == log[i] && log[..k][j] == log[j];
  }
}
