/**
 When the limiter may forget idle keys: exactly when ten minutes refill a bucket. Otherwise
 there are calls it lets through although, had nothing been forgotten, it would not.
 */
module Forgetting {
  import opened Limiter
  import Text

  // --- Runs put together ----------------------------------------------------------------------

  lemma PlayedLast(cfg: Config, reqs: seq<Request>, q: Request)
    ensures
      var r := Played(cfg, reqs);
      Played(cfg, reqs + [q]) == Run(Next(cfg, r.buckets, q.key, q.time),
                                     r.log + [Call(q.key, q.time, Allowed(cfg, r.buckets, q.key, q.time))])
  {
    assert (reqs + [q])[..|reqs|] == reqs;
  }

  function Times(key: string, time: real, n: nat): seq<Request> {
    if n == 0 then [] else Times(key, time, n - 1) + [Request(key, time)]
  }

  function Passes(key: string, time: real, n: nat): (calls: seq<Call>)
    ensures |calls| == n && forall i :: 0 <= i < n ==> calls[i] == Call(key, time, true)
  {
    if n == 0 then [] else Passes(key, time, n - 1) + [Call(key, time, true)]
  }

  /** One call each for the keys 1 .. n. */
  function OnceEach(time: real, n: nat): seq<Request> {
    if n == 0 then [] else OnceEach(time, n - 1) + [Request(Text.Long(n), time)]
  }

  // --- What they leave behind -------------------------------------------------------------------

  lemma FirstCall(cfg: Config, bs: Buckets, key: string, now: real)
    requires cfg.burst >= 1 && |bs| <= MANY && key !in bs
    ensures Allowed(cfg, bs, key, now)
    ensures Next(cfg, bs, key, now) == bs[key := Bucket((cfg.burst - 1) as real, now)]
  {
    assert Income(cfg, now - now) == 0.0;
    hide Income;
  }

  lemma NextCall(cfg: Config, bs: Buckets, key: string, now: real, left: nat)
    requires 1 <= left <= cfg.burst && key in bs && bs[key] == Bucket(left as real, now)
    ensures Allowed(cfg, bs, key, now)
    ensures Next(cfg, bs, key, now) == bs[key := Bucket((left - 1) as real, now)]
  {
    assert Income(cfg, now - now) == 0.0;
    hide Income;
  }

  /** A key without a bucket spends a whole one at once. */
  lemma {:induction false} SpendsAll(cfg: Config, before: seq<Request>, key: string, now: real, n: nat)
    requires n <= cfg.burst && |Played(cfg, before).buckets| <= MANY && key !in Played(cfg, before).buckets
    ensures
      var r, s := Played(cfg, before), Played(cfg, before + Times(key, now, n));
      && s.log == r.log + Passes(key, now, n)
      && s.buckets == if n == 0 then r.buckets else r.buckets[key := Bucket((cfg.burst - n) as real, now)]
    decreases n
  {
    hide Played, Next, Allowed;
    if n == 0 {
      assert before + Times(key, now, 0) == before;
    } else {
      var sofar := before + Times(key, now, n - 1);
      SpendsAll(cfg, before, key, now, n - 1);
      PlayedLast(cfg, sofar, Request(key, now));
      assert sofar + [Request(key, now)] == before + Times(key, now, n);
      if n == 1 {
        FirstCall(cfg, Played(cfg, sofar).buckets, key, now);
      } else {
        NextCall(cfg, Played(cfg, sofar).buckets, key, now, cfg.burst - (n - 1));
      }
    }
  }

  /** All keys were last seen at `time`. */
  ghost predicate Fresh(bs: Buckets, time: real) {
    forall k :: k in bs ==> bs[k].last == time
  }

  /** n keys of at most that length but one. */
  ghost predicate Filled(bs: Buckets, time: real, n: nat) {
    |bs| == n && Fresh(bs, time) && forall k :: k in bs ==> |k| < n
  }

  lemma NewKey(cfg: Config, bs: Buckets, key: string, time: real, n: nat)
    requires n <= MANY && |key| == n && Filled(bs, time, n)
    ensures Filled(Next(cfg, bs, key, time), time, n + 1)
  {
    var u := Next(cfg, bs, key, time);
    assert u.Keys == bs.Keys + {key};
    assert |u.Keys| == |bs.Keys| + 1;
    hide Spent;
  }

  /** Of these keys, none is the empty one. */
  ghost predicate Others(calls: seq<Call>, time: real) {
    forall i :: 0 <= i < |calls| ==> calls[i].key != "" && calls[i].time == time
  }

  lemma {:induction false} KeysFill(cfg: Config, before: seq<Request>, time: real, n: nat) returns (calls: seq<Call>)
    requires n <= MANY && Filled(Played(cfg, before).buckets, time, 1)
    ensures
      var s := Played(cfg, before + OnceEach(time, n));
      Filled(s.buckets, time, n + 1) && s.log == Played(cfg, before).log + calls && Others(calls, time)
    decreases n
  {
    hide Played, Next, Allowed, Text.Long, Filled;
    if n == 0 {
      assert before + OnceEach(time, 0) == before;
      calls := [];
    } else {
      var sofar := before + OnceEach(time, n - 1);
      var some := KeysFill(cfg, before, time, n - 1);
      PlayedLast(cfg, sofar, Request(Text.Long(n), time));
      assert sofar + [Request(Text.Long(n), time)] == before + OnceEach(time, n);
      NewKey(cfg, Played(cfg, sofar).buckets, Text.Long(n), time, n);
      calls := some + [Call(Text.Long(n), time, Allowed(cfg, Played(cfg, sofar).buckets, Text.Long(n), time))];
    }
  }

  // --- A run that is wrong ---------------------------------------------------------------------------

  /** Ten minutes later a new key sweeps the others away. */
  lemma Sweeps(cfg: Config, bs: Buckets, key: string, now: real)
    requires Filled(bs, 0.0, MANY + 1) && |key| == MANY + 1 && now > IDLE
    ensures Next(cfg, bs, key, now).Keys == {key}
  {
    assert Swept(bs, now) == map[];
  }

  lemma {:induction false} PassedJoins(a: seq<Call>, b: seq<Call>, k: string)
    ensures Passed(a + b, 0, k) == Passed(a, 0, k) + Passed(b, 0, k)
    decreases |b|
  {
    if b == [] {
      assert a + b == a;
    } else {
      var n := |b| - 1;
      assert (a + b)[..|a + b| - 1] == a + b[..n];
      PassedJoins(a, b[..n], k);
    }
  }

  lemma OneMorePasses(calls: seq<Call>, key: string, time: real)
    ensures Passed(calls + [Call(key, time, true)], 0, key) == Passed(calls, 0, key) + 1
  {
    assert (calls + [Call(key, time, true)])[..|calls|] == calls;
  }

  lemma {:induction false} PassesPass(key: string, time: real, n: nat)
    ensures Passed(Passes(key, time, n), 0, key) == n
    decreases n
  {
    if n > 0 {
      PassesPass(key, time, n - 1);
      OneMorePasses(Passes(key, time, n - 1), key, time);
    }
    hide Passed;
  }

  /** Too many calls for one key. */
  lemma TooMany(cfg: Config, between: seq<Call>, now: real)
    requires cfg.burst >= 1 && Income(cfg, now) < cfg.burst as real
    ensures !Exact(cfg, Passes("", 0.0, cfg.burst) + between + Passes("", now, cfg.burst))
  {
    var n := cfg.burst;
    var first, again := Passes("", 0.0, n), Passes("", now, n);
    var log := first + between + again;
    var i := |log| - 1;
    PassesPass("", 0.0, n);
    PassesPass("", now, n);
    PassesPass("", now, n - 1);
    assert log[i] == again[n - 1] == Call("", now, true);
    assert log[..i] == first + between + Passes("", now, n - 1);
    assert log[..i][0] == Call("", 0.0, true);
    PassedJoins(first + between, Passes("", now, n - 1), "");
    PassedJoins(first, between, "");
    hide Passed, Passes, Income;
    assert !Leaves(cfg, log[..i], "", now, 1.0);
    assert log[i].allowed && !Fits(cfg, log[..i], "", now);
  }

  lemma {:induction false} TimesAgree(key: string, time: real, n: nat)
    ensures |Times(key, time, n)| == n
    ensures forall i :: 0 <= i < n ==> Times(key, time, n)[i].time == time
    decreases n
  {
    if n > 0 { TimesAgree(key, time, n - 1); }
  }

  lemma {:induction false} OnceEachAgree(time: real, n: nat)
    ensures |OnceEach(time, n)| == n
    ensures forall i :: 0 <= i < n ==> OnceEach(time, n)[i].time == time
    decreases n
  {
    if n > 0 { OnceEachAgree(time, n - 1); }
  }

  /** One key spends its bucket, many others come, and after `idle` a last one, and the first key again. */
  function Greedy(cfg: Config, idle: real): seq<Request>
    requires cfg.burst >= 1
  {
    Times("", 0.0, cfg.burst) + OnceEach(0.0, MANY) + [Request(Text.Long(MANY + 1), idle)] + Times("", idle, cfg.burst)
  }

  lemma GreedyInOrder(cfg: Config, idle: real)
    requires cfg.burst >= 1 && idle >= 0.0
    ensures InOrder(Greedy(cfg, idle))
  {
    TimesAgree("", 0.0, cfg.burst);
    TimesAgree("", idle, cfg.burst);
    OnceEachAgree(0.0, MANY);
    hide Times, OnceEach, Text.Long;
    var reqs, early := Greedy(cfg, idle), cfg.burst + MANY;
    assert forall i :: 0 <= i < |reqs| ==> reqs[i].time == if i < early then 0.0 else idle;
  }

  lemma SpendsFirst(cfg: Config)
    requires cfg.burst >= 1
    ensures
      var r := Played(cfg, Times("", 0.0, cfg.burst));
      Filled(r.buckets, 0.0, 1) && r.log == Passes("", 0.0, cfg.burst)
  {
    hide *;
    var reqs := Times("", 0.0, cfg.burst);
    NothingPlayed(cfg, []);
    SpendsAll(cfg, [], "", 0.0, cfg.burst);
    assert [] + reqs == reqs;
    OneBucket(Played(cfg, []).buckets, Played(cfg, reqs).buckets, (cfg.burst - cfg.burst) as real);
  }

  lemma OneBucket(none: Buckets, bs: Buckets, tokens: real)
    requires none == map[] && bs == none["" := Bucket(tokens, 0.0)]
    ensures Filled(bs, 0.0, 1)
  {
    assert bs.Keys == {""};
  }

  lemma NothingPlayed(cfg: Config, none: seq<Request>)
    requires none == []
    ensures Played(cfg, none) == Run(map[], []) && |Played(cfg, none).buckets| <= MANY
    ensures forall calls :: Played(cfg, none).log + calls == calls
  {}

  /** The first key has spent its bucket, and many others have come. */
  lemma GreedyFills(cfg: Config) returns (calls: seq<Call>)
    requires cfg.burst >= 1
    ensures
      var r := Played(cfg, Times("", 0.0, cfg.burst) + OnceEach(0.0, MANY));
      Filled(r.buckets, 0.0, MANY + 1) && r.log == Passes("", 0.0, cfg.burst) + calls
  {
    hide Played, Times, OnceEach, Passes, Filled;
    SpendsFirst(cfg);
    calls := KeysFill(cfg, Times("", 0.0, cfg.burst), 0.0, MANY);
  }

  /** The first key gets a second bucket, though its first has not been refilled. */
  lemma GreedyIsWrong(cfg: Config, idle: real)
    requires cfg.burst >= 1 && idle > IDLE && Income(cfg, idle) < cfg.burst as real
    ensures !Exact(cfg, Played(cfg, Greedy(cfg, idle)).log)
  {
    hide Played, Next, Times, OnceEach, Passes, Allowed, Income, Text.Long, Exact, Filled;
    var n, last := cfg.burst, Request(Text.Long(MANY + 1), idle);
    var full := Times("", 0.0, n) + OnceEach(0.0, MANY);
    var calls := GreedyFills(cfg);
    PlayedLast(cfg, full, last);
    Sweeps(cfg, Played(cfg, full).buckets, last.key, idle);
    var swept := full + [last];
    assert |Played(cfg, swept).buckets.Keys| == 1;
    SpendsAll(cfg, swept, "", idle, n);
    var between := calls + [Call(last.key, idle, Allowed(cfg, Played(cfg, full).buckets, last.key, idle))];
    assert Played(cfg, swept).log == Passes("", 0.0, n) + between;
    TooMany(cfg, between, idle);
  }

  lemma JustOver(cfg: Config) returns (idle: real)
    requires cfg.rate >= 0.0 && Income(cfg, IDLE) < cfg.burst as real
    ensures idle > IDLE && Income(cfg, idle) < cfg.burst as real
  {
    var short := cfg.burst as real - Income(cfg, IDLE);
    var extra := short / (2.0 * (cfg.rate + 1.0));
    idle := IDLE + extra;
    assert extra * (2.0 * (cfg.rate + 1.0)) == short;
    assert extra > 0.0;
    assert Income(cfg, idle) == Income(cfg, IDLE) + extra * cfg.rate;
    assert extra * cfg.rate <= extra * (2.0 * (cfg.rate + 1.0)) - extra;
  }

  /** A limiter without tokens lets nothing through, and so does the reference. */
  lemma {:induction false} NothingPasses(cfg: Config, reqs: seq<Request>)
    requires cfg.burst < 1
    ensures Exact(cfg, Played(cfg, reqs).log)
    decreases |reqs|
  {
    if reqs != [] {
      var n := |reqs| - 1;
      NothingPasses(cfg, reqs[..n]);
      assert !Allowed(cfg, Played(cfg, reqs[..n]).buckets, reqs[n].key, reqs[n].time);
      hide Allowed, Leaves, Next;
    }
  }

  /**
   Forgetting idle keys is harmless exactly when ten minutes refill a bucket: then, and only
   then, the limiter decides every call of every run as the reference does, which knows of no
   eviction. (A limiter without tokens lets nothing through either way.)
   */
  lemma ForgettingNeedsRefill(cfg: Config)
    requires cfg.rate >= 0.0
    ensures (forall reqs :: InOrder(reqs) ==> Exact(cfg, Played(cfg, reqs).log)) <==>
            cfg.burst < 1 || RefillsWhileIdle(cfg)
  {
    hide Exact, Played, InOrder, Income;
    if cfg.burst < 1 {
      forall reqs
        ensures Exact(cfg, Played(cfg, reqs).log)
      {
        NothingPasses(cfg, reqs);
      }
    } else if RefillsWhileIdle(cfg) {
      forall reqs | InOrder(reqs)
        ensures Exact(cfg, Played(cfg, reqs).log)
      {
        DecidesExactly(cfg, reqs);
      }
    } else {
      var idle := JustOver(cfg);
      GreedyInOrder(cfg, idle);
      GreedyIsWrong(cfg, idle);
    }
  }
}
