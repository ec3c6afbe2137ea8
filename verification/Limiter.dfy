/**
 The per-key token bucket of the server, which forgets keys it has not seen for
 ten minutes when it tracks many. Time and tokens are real numbers, and the clock
 never goes back.
 */
module Limiter {
  datatype Bucket = Bucket(tokens: real, last: real)

  type Buckets = map<string, Bucket>

  /** `rate` is tokens a second. */
  datatype Config = Config(burst: int, rate: real)

  const IDLE := 600.0
  const MANY := 10000

  // --- One request ------------------------------------------------------------------

  function Swept(bs: Buckets, now: real): Buckets {
    map k | k in bs && now - bs[k].last <= IDLE :: bs[k]
  }

  function Found(cfg: Config, bs: Buckets, key: string, now: real): Buckets {
    if key in bs then bs
    else (if |bs| > MANY then Swept(bs, now) else bs)[key := Bucket(cfg.burst as real, now)]
  }

  function Min(x: real, y: real): real {
    if x < y then x else y
  }

  /** The tokens that come in over a stretch of time. */
  function Income(cfg: Config, seconds: real): real {
    seconds * cfg.rate
  }

  function Refilled(cfg: Config, b: Bucket, now: real): real {
    Min(b.tokens + Income(cfg, now - b.last), cfg.burst as real)
  }

  function Spent(cfg: Config, b: Bucket, now: real): Bucket {
    var t := Refilled(cfg, b, now);
    Bucket(if t < 1.0 then t else t - 1.0, now)
  }

  function Next(cfg: Config, bs: Buckets, key: string, now: real): Buckets {
    var found := Found(cfg, bs, key, now);
    found[key := Spent(cfg, found[key], now)]
  }

  function Allowed(cfg: Config, bs: Buckets, key: string, now: real): bool {
    Refilled(cfg, Found(cfg, bs, key, now)[key], now) >= 1.0
  }

  /** Of the other buckets a request changes none, and forgets one only if it opens another beyond ten thousand. */
  lemma ForgetsExactly(cfg: Config, bs: Buckets, key: string, now: real, k: string)
    requires k != key
    ensures
      var r := Next(cfg, bs, key, now);
      && (k in r <==> k in bs && (key in bs || |bs| <= 10000 || now - bs[k].last <= 600.0))
      && (k in r ==> r[k] == bs[k])
  {}

  class TokenBuckets {
    var buckets: Buckets
    const cfg: Config

    constructor (burst: int, rate: real)
      ensures buckets == map[] && cfg == Config(burst, rate)
    {
      buckets := map[];
      cfg := Config(burst, rate);
    }

    method Allow(key: string, now: real) returns (ok: bool)
      modifies this
      ensures buckets == Next(cfg, old(buckets), key, now)
      ensures ok == Allowed(cfg, old(buckets), key, now)
    {
      if key !in buckets {
        if |buckets| > MANY {
          Sweep(now);
        }
        buckets := buckets[key := Bucket(cfg.burst as real, now)];
      }
      assert buckets == Found(cfg, old(buckets), key, now);
      hide Found, Income;
      var b := buckets[key];
      b := b.(tokens := b.tokens + Income(cfg, now - b.last));
      if b.tokens > cfg.burst as real {
        b := b.(tokens := cfg.burst as real);
      }
      b := b.(last := now);
      if b.tokens < 1.0 {
        buckets := buckets[key := b];
        return false;
      }
      buckets := buckets[key := b.(tokens := b.tokens - 1.0)];
      ok := true;
    }

    method Sweep(now: real)
      modifies this
      ensures buckets == Swept(old(buckets), now)
    {
      var keys := buckets.Keys;
      while keys != {}
        invariant keys <= old(buckets).Keys
        invariant forall k :: k in keys ==> k in buckets
        invariant forall k :: k in buckets ==> k in old(buckets) && buckets[k] == old(buckets)[k]
        invariant forall k :: k in old(buckets) && k !in keys ==> (k in buckets <==> now - old(buckets)[k].last <= IDLE)
        decreases |keys|
      {
        var k :| k in keys;
        if now - buckets[k].last > IDLE {
          buckets := buckets - {k};
        }
        keys := keys - {k};
      }
    }
  }

  // --- What the limiter promises, without buckets -----------------------------------------

  datatype Call = Call(key: string, time: real, allowed: bool)

  /** The calls for a key that were let through, from position j on. */
  function Passed(log: seq<Call>, j: nat, k: string): (n: nat)
    decreases |log|
  {
    if |log| <= j then 0
    else
      Passed(log[..|log| - 1], j, k)
      + if log[|log| - 1].key == k && log[|log| - 1].allowed then 1 else 0
  }

  /** Every stretch from a call for k up to `now` leaves x tokens. */
  ghost predicate Leaves(cfg: Config, log: seq<Call>, k: string, now: real, x: real) {
    forall j :: 0 <= j < |log| && log[j].key == k ==>
      Passed(log, j, k) as real + x <= cfg.burst as real + Income(cfg, now - log[j].time)
  }

  /**
   One more call for k at `now` keeps every stretch that ends there, from any earlier call
   on, within its allowance.
   */
  ghost predicate Fits(cfg: Config, log: seq<Call>, k: string, now: real) {
    cfg.burst >= 1 && Leaves(cfg, log, k, now, 1.0)
  }

  /** The reference: a call is let through exactly when it fits. */
  ghost predicate Exact(cfg: Config, log: seq<Call>) {
    forall i :: 0 <= i < |log| ==> (log[i].allowed <==> Fits(cfg, log[..i], log[i].key, log[i].time))
  }

  /** The tokens key k would have at `now`, had nothing ever been forgotten. */
  function Level(cfg: Config, log: seq<Call>, k: string, now: real): real
    decreases |log|
  {
    if log == [] then cfg.burst as real
    else
      var last := log[|log| - 1];
      if last.key != k then Level(cfg, log[..|log| - 1], k, now)
      else
        Min(Level(cfg, log[..|log| - 1], k, last.time) - (if last.allowed then 1.0 else 0.0)
            + Income(cfg, now - last.time), cfg.burst as real)
  }

  lemma IncomeAdds(cfg: Config, now: real, mid: real, start: real)
    ensures Income(cfg, now - start) == Income(cfg, mid - start) + Income(cfg, now - mid)
  {}

  lemma LeavesStep(cfg: Config, log: seq<Call>, last: Call, now: real, x: real)
    ensures var k := last.key;
            var used := if last.allowed then 1.0 else 0.0;
            var y := x + used - Income(cfg, now - last.time);
            Leaves(cfg, log + [last], k, now, x) <==>
            Leaves(cfg, log, k, last.time, y) && used + x <= cfg.burst as real + Income(cfg, now - last.time)
  {
    var k := last.key;
    var n := |log|;
    var longer := log + [last];
    assert longer[..n] == log;
    var used := if last.allowed then 1 else 0;
    var y := x + used as real - Income(cfg, now - last.time);
    assert Passed(longer, n, k) == used;
    forall j | 0 <= j < n ensures Passed(longer, j, k) == used + Passed(log, j, k) {}
    forall j | 0 <= j < n ensures
      (Passed(longer, j, k) as real + x <= cfg.burst as real + Income(cfg, now - longer[j].time) <==>
       Passed(log, j, k) as real + y <= cfg.burst as real + Income(cfg, last.time - log[j].time))
    {
      IncomeAdds(cfg, now, last.time, log[j].time);
      hide Passed, Income;
    }
    hide Passed, Income;
    assert longer[n] == last;
  }

  lemma LeavesOthers(cfg: Config, log: seq<Call>, last: Call, k: string, now: real, x: real)
    requires last.key != k
    ensures Leaves(cfg, log + [last], k, now, x) <==> Leaves(cfg, log, k, now, x)
  {
    var longer := log + [last];
    assert longer[..|log|] == log;
    forall j | 0 <= j < |log| ensures Passed(longer, j, k) == Passed(log, j, k) && longer[j] == log[j] {}
    hide Passed, Income;
  }

  /** x tokens are there exactly when no stretch of calls has used up more than its allowance less x. */
  lemma {:induction false} LevelMeans(cfg: Config, log: seq<Call>, k: string, now: real, x: real)
    ensures Level(cfg, log, k, now) >= x <==> cfg.burst as real >= x && Leaves(cfg, log, k, now, x)
    decreases |log|
  {
    if |log| > 0 {
      var last, rest := log[|log| - 1], log[..|log| - 1];
      assert log == rest + [last];
      hide Leaves, Income;
      if last.key == k {
        var y := x + (if last.allowed then 1.0 else 0.0) - Income(cfg, now - last.time);
        LevelMeans(cfg, rest, k, last.time, y);
        LeavesStep(cfg, rest, last, now, x);
      } else {
        LevelMeans(cfg, rest, k, now, x);
        LeavesOthers(cfg, rest, last, k, now, x);
      }
    }
  }

  // --- Whole runs ---------------------------------------------------------------------

  datatype Request = Request(key: string, time: real)

  datatype Run = Run(buckets: Buckets, log: seq<Call>)

  /** Every request of a run, decided in turn. */
  function Played(cfg: Config, reqs: seq<Request>): (r: Run)
    ensures |r.log| == |reqs|
    ensures forall i :: 0 <= i < |reqs| ==> r.log[i].key == reqs[i].key && r.log[i].time == reqs[i].time
  {
    if reqs == [] then Run(map[], [])
    else
      var before, q := Played(cfg, reqs[..|reqs| - 1]), reqs[|reqs| - 1];
      Run(Next(cfg, before.buckets, q.key, q.time),
          before.log + [Call(q.key, q.time, Allowed(cfg, before.buckets, q.key, q.time))])
  }

  predicate InOrder(reqs: seq<Request>) {
    forall i, j :: 0 <= i < j < |reqs| ==> reqs[i].time <= reqs[j].time
  }

  /** Ten minutes refill a bucket, whatever was left in it: true of 20 and 10/60. */
  predicate RefillsWhileIdle(cfg: Config) {
    cfg.rate >= 0.0 && 0.0 <= cfg.burst as real <= Income(cfg, 600.0)
  }

  lemma ConfiguredRefills()
    ensures RefillsWhileIdle(Config(20, 10.0 / 60.0))
  {
    assert IDLE * (10.0 / 60.0) == 100.0;
  }

  lemma IncomeGrows(cfg: Config, a: real, b: real)
    requires cfg.rate >= 0.0 && a <= b
    ensures Income(cfg, a) <= Income(cfg, b)
  {}

  /** A bucket stands for the calls of its key. */
  ghost predicate Stands(cfg: Config, b: Bucket, log: seq<Call>, k: string, now: real) {
    && b.tokens >= 0.0 && b.last <= now
    && forall t: real :: Level(cfg, log, k, t) == Refilled(cfg, b, t)
  }

  /** Every bucket stands for its key's calls; a key without one has all its tokens. */
  ghost predicate Tracks(cfg: Config, bs: Buckets, log: seq<Call>, now: real) {
    && (forall k :: k in bs ==> Stands(cfg, bs[k], log, k, now))
    && (forall k, t: real :: k !in bs && t >= now ==> Level(cfg, log, k, t) == cfg.burst as real)
  }

  /** Sweeping idle buckets leaves every key standing for the same calls. */
  lemma SweepKeepsTracking(cfg: Config, bs: Buckets, log: seq<Call>, t0: real, now: real)
    requires RefillsWhileIdle(cfg) && Tracks(cfg, bs, log, t0) && t0 <= now
    ensures Tracks(cfg, Swept(bs, now), log, now)
  {
    forall k, t: real | k !in Swept(bs, now) && t >= now ensures Level(cfg, log, k, t) == cfg.burst as real {
      if k in bs {
        assert Stands(cfg, bs[k], log, k, t0);
        IncomeGrows(cfg, IDLE, t - bs[k].last);
      }
    }
  }

  lemma FindKeepsTracking(cfg: Config, bs: Buckets, log: seq<Call>, t0: real, key: string, now: real)
    requires RefillsWhileIdle(cfg) && Tracks(cfg, bs, log, t0) && t0 <= now
    ensures var found := Found(cfg, bs, key, now);
            && key in found && found[key].tokens >= 0.0 && found[key].last <= now
            && Level(cfg, log, key, now) == Refilled(cfg, found[key], now)
            && (forall k :: k in found && k != key ==> Stands(cfg, found[k], log, k, now))
            && (forall k, t: real :: k !in found && t >= now ==> Level(cfg, log, k, t) == cfg.burst as real)
  {
    if key in bs {
      assert Stands(cfg, bs[key], log, key, t0);
    } else {
      if |bs| > MANY {
        SweepKeepsTracking(cfg, bs, log, t0, now);
      }
      assert Level(cfg, log, key, now) == cfg.burst as real;
      assert Income(cfg, now - now) == 0.0;
    }
    hide Level, Income, Refilled;
  }

  /** One decision agrees with the level, and the new bucket stands for the longer log. */
  lemma StepKeepsTracking(cfg: Config, bs: Buckets, log: seq<Call>, t0: real, key: string, now: real)
    requires RefillsWhileIdle(cfg) && Tracks(cfg, bs, log, t0) && t0 <= now
    ensures var ok := Allowed(cfg, bs, key, now);
            && (ok <==> Level(cfg, log, key, now) >= 1.0)
            && Tracks(cfg, Next(cfg, bs, key, now), log + [Call(key, now, ok)], now)
  {
    var ok := Allowed(cfg, bs, key, now);
    var found := Found(cfg, bs, key, now);
    var after := Next(cfg, bs, key, now);
    var longer := log + [Call(key, now, ok)];
    FindKeepsTracking(cfg, bs, log, t0, key, now);
    SpentStands(cfg, log, found[key], key, now);
    hide Found, Level, Income, Refilled, Spent;
    forall k | k in after && k != key ensures Stands(cfg, after[k], longer, k, now) {
      assert Stands(cfg, found[k], log, k, now);
      OthersStand(cfg, log, longer[|log|], found[k], k, now);
    }
    forall k, t: real | k !in after && t >= now ensures Level(cfg, longer, k, t) == cfg.burst as real {
      LevelStep(cfg, log, longer[|log|], k, t);
    }
  }

  /** The bucket after the call stands for the calls. */
  lemma SpentStands(cfg: Config, log: seq<Call>, b: Bucket, key: string, now: real)
    requires cfg.rate >= 0.0 && cfg.burst >= 0 && b.tokens >= 0.0 && b.last <= now
    requires Level(cfg, log, key, now) == Refilled(cfg, b, now)
    ensures Stands(cfg, Spent(cfg, b, now), log + [Call(key, now, Refilled(cfg, b, now) >= 1.0)], key, now)
  {
    var last := Call(key, now, Refilled(cfg, b, now) >= 1.0);
    IncomeIsNotNegative(cfg, now - b.last);
    hide Income, Level;
    forall t: real
      ensures Level(cfg, log + [last], key, t) == Refilled(cfg, Spent(cfg, b, now), t)
    {
      LevelStep(cfg, log, last, key, t);
    }
  }

  /** Other keys do not notice. */
  lemma OthersStand(cfg: Config, log: seq<Call>, last: Call, b: Bucket, k: string, now: real)
    requires Stands(cfg, b, log, k, now) && last.key != k
    ensures Stands(cfg, b, log + [last], k, now)
  {
    hide Level, Refilled;
    forall t: real
      ensures Level(cfg, log + [last], k, t) == Refilled(cfg, b, t)
    {
      LevelStep(cfg, log, last, k, t);
    }
  }

  /** One more call. */
  function LevelAfter(cfg: Config, log: seq<Call>, last: Call, k: string, now: real): real {
    if last.key != k then Level(cfg, log, k, now)
    else
      Min(Level(cfg, log, k, last.time) - (if last.allowed then 1.0 else 0.0) + Income(cfg, now - last.time),
          cfg.burst as real)
  }

  lemma LevelStep(cfg: Config, log: seq<Call>, last: Call, k: string, now: real)
    ensures Level(cfg, log + [last], k, now) == LevelAfter(cfg, log, last, k, now)
  {
    assert (log + [last])[..|log|] == log;
    hide Income;
  }

  lemma IncomeIsNotNegative(cfg: Config, seconds: real)
    requires cfg.rate >= 0.0 && seconds >= 0.0
    ensures Income(cfg, seconds) >= 0.0
  {}

  /**
   The limiter with its evictions decides every call of every run as the reference
   does, which knows of no eviction.
   */
  lemma {:induction false} DecidesExactly(cfg: Config, reqs: seq<Request>)
    requires RefillsWhileIdle(cfg) && InOrder(reqs)
    ensures Exact(cfg, Played(cfg, reqs).log)
    ensures forall t: real :: (forall i :: 0 <= i < |reqs| ==> reqs[i].time <= t) ==>
              Tracks(cfg, Played(cfg, reqs).buckets, Played(cfg, reqs).log, t)
  {
    var r := Played(cfg, reqs);
    if |reqs| == 0 {
      assert Exact(cfg, r.log);
    } else {
      var n := |reqs| - 1;
      var q, before := reqs[n], Played(cfg, reqs[..n]);
      DecidesExactly(cfg, reqs[..n]);
      assert Tracks(cfg, before.buckets, before.log, q.time);
      hide Tracks, Next, Allowed, Fits, InOrder, RefillsWhileIdle;
      StepKeepsTracking(cfg, before.buckets, before.log, q.time, q.key, q.time);
      LevelMeans(cfg, before.log, q.key, q.time, 1.0);
      assert r.log[..n] == before.log;
      FitsMeans(cfg, before.log, q.key, q.time);
      forall i | 0 <= i < |r.log| ensures r.log[i].allowed <==> Fits(cfg, r.log[..i], r.log[i].key, r.log[i].time) {
        assert i < n ==> r.log[..i] == before.log[..i];
      }
      forall t: real | forall i :: 0 <= i < |reqs| ==> reqs[i].time <= t
        ensures Tracks(cfg, r.buckets, r.log, t)
      {
        TracksLater(cfg, r.buckets, r.log, q.time, t);
      }
    }
  }

  lemma FitsMeans(cfg: Config, log: seq<Call>, k: string, now: real)
    ensures Fits(cfg, log, k, now) <==> cfg.burst as real >= 1.0 && Leaves(cfg, log, k, now, 1.0)
  {}

  lemma TracksLater(cfg: Config, bs: Buckets, log: seq<Call>, now: real, later: real)
    requires Tracks(cfg, bs, log, now) && now <= later
    ensures Tracks(cfg, bs, log, later)
  {}

  /** Of two runs of the reference over the same requests, neither decides differently. */
  lemma {:induction false} ExactIsOne(cfg: Config, a: seq<Call>, b: seq<Call>)
    requires Exact(cfg, a) && Exact(cfg, b) && |a| == |b|
    requires forall i :: 0 <= i < |a| ==> a[i].key == b[i].key && a[i].time == b[i].time
    ensures a == b
  {
    if |a| > 0 {
      var n := |a| - 1;
      assert forall i :: 0 <= i < n ==> a[..n][..i] == a[..i] && b[..n][..i] == b[..i];
      hide Fits;
      ExactIsOne(cfg, a[..n], b[..n]);
      assert a == a[..n] + [a[n]] && b == b[..n] + [b[n]];
    }
  }

  /** In any stretch of a run, a key is let through at most burst + rate * length times. */
  lemma {:induction false} WindowBound(cfg: Config, log: seq<Call>, i: nat, j: nat, k: string)
    requires Exact(cfg, log) && cfg.rate >= 0.0 && cfg.burst >= 0 && i <= j < |log|
    requires forall x, y :: 0 <= x < y < |log| ==> log[x].time <= log[y].time
    ensures Passed(log[..j + 1], i, k) as real <= cfg.burst as real + Income(cfg, log[j].time - log[i].time)
    decreases j
  {
    var upto := log[..j + 1];
    var width := log[j].time - log[i].time;
    assert upto[..j] == log[..j] && upto[j] == log[j];
    IncomeIsNotNegative(cfg, width);
    assert Passed(upto, i, k) == Passed(log[..j], i, k) + if log[j].key == k && log[j].allowed then 1 else 0;
    assert i == j ==> Passed(log[..j], i, k) == 0;
    hide Passed, Fits, Income;
    if log[j].key == k && log[j].allowed {
      assert Fits(cfg, log[..j], k, log[j].time);
      StretchFits(cfg, log, i, j, k);
    } else if i < j {
      WindowBound(cfg, log, i, j - 1, k);
      IncomeGrows(cfg, log[j - 1].time - log[i].time, width);
    }
  }

  lemma {:induction false} StretchFits(cfg: Config, log: seq<Call>, i: nat, j: nat, k: string)
    requires cfg.rate >= 0.0 && i <= j < |log| && Fits(cfg, log[..j], k, log[j].time)
    requires forall x, y :: 0 <= x < y < |log| ==> log[x].time <= log[y].time
    ensures Passed(log[..j], i, k) as real + 1.0 <= cfg.burst as real + Income(cfg, log[j].time - log[i].time)
    decreases j - i
  {
    IncomeIsNotNegative(cfg, log[j].time - log[i].time);
    if i == j {
    } else if log[i].key == k {
      assert log[..j][i] == log[i];
    } else {
      StretchFits(cfg, log, i + 1, j, k);
      SkipOther(log[..j], i, k);
      IncomeGrows(cfg, log[j].time - log[i + 1].time, log[j].time - log[i].time);
    }
  }

  lemma {:induction false} SkipOther(log: seq<Call>, i: nat, k: string)
    requires i < |log| && log[i].key != k
    ensures Passed(log, i, k) == Passed(log, i + 1, k)
    decreases |log|
  {
    if i < |log| - 1 {
      SkipOther(log[..|log| - 1], i, k);
    }
  }
}
