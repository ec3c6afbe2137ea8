/**
 Catching up page by page while the server's log keeps growing, and the frame
 that triggers it.

 The log as the i-th request finds it is `schedule[i]`; requests after the
 schedule's end find the last one. No row is purged from the table. A row that has
 expired by the device's own clock is passed over.
 */
module Backfill {
  import opened Wrappers
  import opened History
  import opened Replication
  import opened Screen
  import opened Convergence
  import opened Roster
  import opened SyncClient
  import ServerLog

  function At(schedule: seq<seq<Entry>>, i: nat): seq<Entry>
    requires schedule != []
  {
    if i < |schedule| then schedule[i] else schedule[|schedule| - 1]
  }

  function End(schedule: seq<seq<Entry>>): seq<Entry>
    requires schedule != []
  {
    schedule[|schedule| - 1]
  }

  /** The device's timer and the server-wide limit in force at one moment. */
  datatype Rule = Rule(timer: nat, limit: int, now: int)

  function RuleOf(c: Client, now: int): Rule
    reads c
  {
    Rule(c.retentionSeconds, c.retentionDays * 86400, now)
  }

  predicate Fresh(e: Entry, rule: Rule) {
    e.Message? ==> !ServerLog.Expired(e.serverTs, rule.timer, rule.limit, rule.now)
  }

  /** A row is passed over exactly when it is older than the timer, or than the server limit of so many days. */
  lemma PassedOver(c: Client, e: Entry, now: int)
    requires e.Message?
    ensures !Fresh(e, RuleOf(c, now)) <==>
            || (c.retentionSeconds > 0 && now - e.serverTs > 1000 * c.retentionSeconds)
            || (c.retentionDays > 0 && now - e.serverTs > 24 * 60 * 60 * 1000 * c.retentionDays)
  {}

  /** No row has expired. */
  predicate Current(h: seq<Entry>, rule: Rule) {
    forall i :: 0 <= i < |h| ==> Fresh(h[i], rule)
  }

  function IfFresh(h: seq<Entry>, f: nat, rule: Rule): seq<nat>
    requires 0 < f <= |h|
  {
    if Fresh(h[f - 1], rule) then [f] else []
  }

  /** The rows that have not expired. */
  function FreshRows(h: seq<Entry>, rows: seq<nat>, rule: Rule): (out: seq<nat>)
    requires ValidRows(h, rows)
    ensures ValidRows(h, out)
    decreases |rows|
  {
    if rows == [] then []
    else
      var n := |rows| - 1;
      FreshRows(h, rows[..n], rule) + IfFresh(h, rows[n], rule)
  }

  lemma FreshLast(h: seq<Entry>, rows: seq<nat>, f: nat, rule: Rule)
    requires ValidRows(h, rows) && 0 < f <= |h|
    ensures ValidRows(h, rows + [f]) && FreshRows(h, [], rule) == []
    ensures FreshRows(h, rows + [f], rule) == FreshRows(h, rows, rule) + IfFresh(h, f, rule)
  {
    hide Fresh;
    assert (rows + [f])[..|rows|] == rows;
  }

  lemma Reassociates(a: seq<nat>, b: seq<nat>, c: seq<nat>)
    ensures (a + b) + c == a + (b + c)
  {}

  lemma ValidParts(h: seq<Entry>, a: seq<nat>, b: seq<nat>)
    requires ValidRows(h, a) && ValidRows(h, b) && b != []
    ensures
      var n := |b| - 1;
      ValidRows(h, b[..n]) && 0 < b[n] <= |h| && b[..n] + [b[n]] == b && ValidRows(h, a + b[..n]) && ValidRows(h, a + b)
  {}

  lemma {:induction false} FreshJoins(h: seq<Entry>, a: seq<nat>, b: seq<nat>, rule: Rule)
    requires ValidRows(h, a) && ValidRows(h, b)
    ensures ValidRows(h, a + b) && FreshRows(h, a + b, rule) == FreshRows(h, a, rule) + FreshRows(h, b, rule)
    decreases |b|
  {
    if b == [] {
      assert a + b == a;
    } else {
      hide *;
      ValidParts(h, a, b);
      var n := |b| - 1;
      var front := b[..n];
      FreshJoins(h, a, front, rule);
      FreshLast(h, front, b[n], rule);
      FreshLast(h, a + front, b[n], rule);
      Reassociates(FreshRows(h, a, rule), FreshRows(h, front, rule), IfFresh(h, b[n], rule));
      Reassociates(a, front, [b[n]]);
    }
  }

  lemma {:induction false} AllFresh(h: seq<Entry>, rows: seq<nat>, rule: Rule)
    requires ValidRows(h, rows) && Current(h, rule)
    ensures FreshRows(h, rows, rule) == rows
    decreases |rows|
  {
    if rows != [] {
      var n := |rows| - 1;
      var last := rows[n] - 1;
      assert Fresh(h[last], rule);
      hide Fresh, Current;
      AllFresh(h, rows[..n], rule);
      assert rows == rows[..n] + [rows[n]];
    }
  }

  lemma {:induction false} FreshLonger(h: seq<Entry>, g: seq<Entry>, rows: seq<nat>, rule: Rule)
    requires h <= g && ValidRows(h, rows)
    ensures ValidRows(g, rows) && FreshRows(g, rows, rule) == FreshRows(h, rows, rule)
    decreases |rows|
  {
    if rows != [] {
      FreshLonger(h, g, rows[..|rows| - 1], rule);
    }
  }

  /** Every request finds a log that is a history and extends the one before. */
  predicate Growing(schedule: seq<seq<Entry>>) {
    && schedule != []
    && (forall i, j :: 0 <= i <= j < |schedule| ==> schedule[i] <= schedule[j])
    && (forall i :: 0 <= i < |schedule| ==> HistoryOk(schedule[i]))
  }

  // --- Rows delivered in turn ---------------------------------------------------------------

  lemma {:induction false} AppliedLonger(h: seq<Entry>, g: seq<Entry>, v: View, rows: seq<nat>)
    requires h <= g && ValidRows(h, rows)
    ensures ValidRows(g, rows) && ApplyRows(g, v, rows) == ApplyRows(h, v, rows)
    decreases |rows|
  {
    hide StepView;
    if rows != [] {
      AppliedLonger(h, g, StepView(v, rows[0], h[rows[0] - 1]), rows[1..]);
    }
  }

  // --- One page ---------------------------------------------------------------------------

  /** Store and screen after handling rows: those that have not expired, in turn. */
  ghost function ViewAfter(h: seq<Entry>, v: View, rows: seq<nat>, rule: Rule): View
    requires ValidRows(h, rows)
  {
    ApplyRows(h, v, FreshRows(h, rows, rule))
  }

  /** And the conversation's record. */
  ghost function MetaAfter(me: Account, h: seq<Entry>, m: Meta, rows: seq<nat>, rule: Rule): Meta
    requires ValidRows(h, rows)
  {
    Delivered(me, m, h, FreshRows(h, rows, rule))
  }

  lemma AfterJoins(me: Account, h: seq<Entry>, v: View, m: Meta, a: seq<nat>, b: seq<nat>, rule: Rule)
    requires ValidRows(h, a) && ValidRows(h, b)
    ensures ValidRows(h, a + b)
    ensures ViewAfter(h, ViewAfter(h, v, a, rule), b, rule) == ViewAfter(h, v, a + b, rule)
    ensures MetaAfter(me, h, MetaAfter(me, h, m, a, rule), b, rule) == MetaAfter(me, h, m, a + b, rule)
  {
    FreshJoins(h, a, b, rule);
    AppliedJoins(h, v, FreshRows(h, a, rule), FreshRows(h, b, rule));
    DeliveredJoins(me, m, h, FreshRows(h, a, rule), FreshRows(h, b, rule));
    hide FreshRows, ApplyRows, Delivered;
  }

  lemma AfterLonger(me: Account, h: seq<Entry>, g: seq<Entry>, v: View, m: Meta, rows: seq<nat>, rule: Rule)
    requires h <= g && ValidRows(h, rows)
    ensures ValidRows(g, rows) && ViewAfter(g, v, rows, rule) == ViewAfter(h, v, rows, rule)
    ensures MetaAfter(me, g, m, rows, rule) == MetaAfter(me, h, m, rows, rule)
  {
    FreshLonger(h, g, rows, rule);
    AppliedLonger(h, g, v, FreshRows(h, rows, rule));
    DeliveredLonger(me, m, h, g, FreshRows(h, rows, rule));
    hide FreshRows, ApplyRows, Delivered;
  }

  /** One row. */
  lemma AfterOne(me: Account, h: seq<Entry>, v: View, m: Meta, f: nat, rule: Rule)
    requires 0 < f <= |h|
    ensures ValidRows(h, [f])
    ensures ViewAfter(h, v, [f], rule) == if Fresh(h[f - 1], rule) then StepView(v, f, h[f - 1]) else v
    ensures MetaAfter(me, h, m, [f], rule) == if Fresh(h[f - 1], rule) then MetaStep(me, m, f, h[f - 1]) else m
  {
    hide StepView, MetaStep, Fresh;
    assert [f][..0] == [] && [f][1..] == [];
    assert FreshRows(h, [f], rule) == if Fresh(h[f - 1], rule) then [f] else [];
    assert ApplyRows(h, StepView(v, f, h[f - 1]), []) == StepView(v, f, h[f - 1]);
    assert Delivered(me, m, h, [f][..0]) == m;
  }

  /** With nothing expired every row is handled. */
  lemma AfterAll(me: Account, h: seq<Entry>, v: View, m: Meta, rows: seq<nat>, rule: Rule)
    requires ValidRows(h, rows) && Current(h, rule)
    ensures ViewAfter(h, v, rows, rule) == ApplyRows(h, v, rows)
    ensures MetaAfter(me, h, m, rows, rule) == Delivered(me, m, h, rows)
  {
    AllFresh(h, rows, rule);
  }

  method HandleRows(c: Client, h: seq<Entry>, rows: seq<nat>, now: int)
    requires c.Valid() && ValidRows(h, rows)
    modifies c
    ensures c.Valid() && c.joinedSeq == old(c.joinedSeq) && RuleOf(c, now) == old(RuleOf(c, now))
    ensures c.Shown() == ViewAfter(h, old(c.Shown()), rows, RuleOf(c, now))
    ensures c.Record() == MetaAfter(c.me, h, old(c.Record()), rows, RuleOf(c, now))
  {
    hide StepView, MetaStep, ViewAfter, MetaAfter;
    ghost var view, before, rule := c.Shown(), c.Record(), RuleOf(c, now);
    var k := 0;
    assert rows[..0] == [];
    AfterNone(c.me, h, view, before, rule);
    while k < |rows|
      invariant 0 <= k <= |rows| && c.Valid() && ValidRows(h, rows[..k])
      invariant c.Shown() == ViewAfter(h, view, rows[..k], rule)
      invariant c.Record() == MetaAfter(c.me, h, before, rows[..k], rule)
      invariant c.joinedSeq == old(c.joinedSeq) && RuleOf(c, now) == rule
    {
      AfterOne(c.me, h, c.Shown(), c.Record(), rows[k], rule);
      AfterJoins(c.me, h, view, before, rows[..k], [rows[k]], rule);
      assert rows[..k] + [rows[k]] == rows[..k + 1];
      c.HandleIncoming(rows[k], h[rows[k] - 1], now);
      k := k + 1;
    }
    assert rows[..|rows|] == rows;
  }

  lemma AfterNone(me: Account, h: seq<Entry>, v: View, m: Meta, rule: Rule)
    ensures ViewAfter(h, v, [], rule) == v && MetaAfter(me, h, m, [], rule) == m
  {}

  lemma FrontCovers(rows: seq<nat>, n: nat, r: nat)
    requires Convergence.Ascending(rows) && r in rows && 0 < n <= |rows| && r <= rows[n - 1]
    ensures r in rows[..n]
  {
    var i :| 0 <= i < |rows| && rows[i] == r;
    assert i < n;
    assert rows[..n][i] == r;
  }

  /** A page lists every surviving row up to its last one. */
  lemma PageCovers(h: seq<Entry>, after: nat, limit: nat, r: nat)
    requires after < r <= LastOr(Page(h, after, limit), after) && r <= |h| && !Deleted(h, r, |h|)
    ensures r in Page(h, after, limit)
  {
    hide *;
    var rows := RowsFrom(h, after + 1);
    var n := if |rows| > limit then limit else |rows|;
    PageIsFront(h, after, limit);
    SurvivorsAreRows(h, after + 1, r);
    FrontCovers(rows, n, r);
  }

  lemma PageIsFront(h: seq<Entry>, after: nat, limit: nat)
    ensures
      var rows := RowsFrom(h, after + 1);
      var n := if |rows| > limit then limit else |rows|;
      && Page(h, after, limit) == rows[..n] && Convergence.Ascending(rows)
      && LastOr(Page(h, after, limit), after) == (if n == 0 then after else rows[n - 1])
  {
    RowsSurvive(h, after + 1);
    hide RowsFrom, Deleted;
  }

  lemma PageShape(h: seq<Entry>, after: nat, limit: nat)
    requires after <= |h| && limit > 0
    ensures var page := Page(h, after, limit);
            && ValidRows(h, page) && Ascending(page)
            && (forall i :: 0 <= i < |page| ==> after < page[i] <= |h| && !Deleted(h, page[i], |h|))
            && after <= LastOr(page, after) <= |h|
            && (HasMore(h, after, limit) ==> after < LastOr(page, after))
  {
    RowsSurvive(h, after + 1);
    hide RowsFrom, Deleted;
  }

  /** One page handled: as far as its last row, the store is as good as before. */
  lemma PageKeepsView(h: seq<Entry>, joined: nat, synced: nat, p: nat, hz: nat, v: View)
    requires HistoryOk(h) && joined <= synced <= hz <= |h| && 0 < p <= synced + 1
    requires GoodView(h, joined, synced, p, hz, v)
    ensures var page := Page(h, synced, PAGE_LIMIT);
            && ValidRows(h, page) && synced <= LastOr(page, synced) <= |h|
            && GoodView(h, joined, LastOr(page, synced), NextPending(synced, p, LastOr(page, synced)), |h|,
                        ApplyRows(h, v, page))
  {
    hide GoodView, RecordsOk, UniqueSurvivors, RowsFrom, Page, ApplyRows;
    PageIsPrefix(h, synced, PAGE_LIMIT);
    ViewWeakens(h, joined, synced, p, p, hz, |h|, v);
    ApplyRowsKeeps(h, joined, synced, p, v, Page(h, synced, PAGE_LIMIT));
  }

  // --- The loop -------------------------------------------------------------------------------

  /** Row r was in the table at one of the first n requests. */
  ghost predicate SeenAlive(schedule: seq<seq<Entry>>, n: nat, r: nat)
    requires schedule != []
  {
    exists j: nat :: j < n && r <= |At(schedule, j)| && !Deleted(At(schedule, j), r, |At(schedule, j)|)
  }

  /** What n requests have handled: ascending, once each, only rows the table had, and every row it still has. */
  ghost predicate Covered(schedule: seq<seq<Entry>>, n: nat, h: seq<Entry>, start: nat, after: nat, handled: seq<nat>)
    requires schedule != []
  {
    && Convergence.Ascending(handled)
    && (forall i :: 0 <= i < |handled| ==> start < handled[i] <= after && SeenAlive(schedule, n, handled[i]))
    && (forall r :: start < r <= after && r <= |h| && !Deleted(h, r, |h|) ==> r in handled)
  }

  lemma AscendingJoins(a: seq<nat>, b: seq<nat>, mid: nat)
    requires Convergence.Ascending(a) && Convergence.Ascending(b)
    requires forall i :: 0 <= i < |a| ==> a[i] <= mid
    requires forall i :: 0 <= i < |b| ==> mid < b[i]
    ensures Convergence.Ascending(a + b)
  {}

  lemma CoverNothing(schedule: seq<seq<Entry>>, h: seq<Entry>, start: nat)
    requires schedule != []
    ensures Covered(schedule, 0, h, start, start, [])
  {}

  lemma StillAlive(h: seq<Entry>, g: seq<Entry>, r: nat)
    requires h <= g && !Deleted(g, r, |g|)
    ensures !Deleted(h, r, |h|)
  {
    assert forall k :: 0 <= k < |h| ==> h[k] == g[k];
  }

  /** The next page covers what comes next. */
  lemma CoverPage(schedule: seq<seq<Entry>>, n: nat, h: seq<Entry>, start: nat, after: nat, handled: seq<nat>)
    requires schedule != [] && Covered(schedule, n, h, start, after, handled)
    requires h <= At(schedule, n) && start <= after <= |h|
    ensures var g := At(schedule, n);
            var page := Page(g, after, PAGE_LIMIT);
            Covered(schedule, n + 1, g, start, LastOr(page, after), handled + page)
  {
    var g := At(schedule, n);
    var page := Page(g, after, PAGE_LIMIT);
    var last := LastOr(page, after);
    var all := handled + page;
    PageShape(g, after, PAGE_LIMIT);
    hide Page, Deleted, At;
    assert forall i :: 0 <= i < |page| ==> page[i] <= last;
    AscendingJoins(handled, page, after);
    forall i | 0 <= i < |all| ensures start < all[i] <= last && SeenAlive(schedule, n + 1, all[i]) {
      if i < |handled| {
        assert all[i] == handled[i];
        SeenLater(schedule, n, all[i]);
      } else {
        assert all[i] == page[i - |handled|];
        assert SeenAlive(schedule, n + 1, all[i]);
      }
    }
    forall r | start < r <= last && r <= |g| && !Deleted(g, r, |g|) ensures r in all {
      if r <= after {
        StillAlive(h, g, r);
        assert r in handled;
      } else {
        PageCovers(g, after, PAGE_LIMIT, r);
      }
    }
  }

  lemma SeenLater(schedule: seq<seq<Entry>>, n: nat, r: nat)
    requires schedule != [] && SeenAlive(schedule, n, r)
    ensures SeenAlive(schedule, n + 1, r)
  {
    hide Deleted, At;
  }

  lemma AtGrows(schedule: seq<seq<Entry>>, n: nat)
    requires Growing(schedule)
    ensures At(schedule, n) <= At(schedule, n + 1) <= End(schedule)
    ensures HistoryOk(At(schedule, n))
    ensures n >= |schedule| - 1 ==> At(schedule, n) == End(schedule)
  {
    hide HistoryOk;
  }

  lemma CurrentPrefix(h: seq<Entry>, g: seq<Entry>, rule: Rule)
    requires h <= g && Current(g, rule)
    ensures Current(h, rule)
  {
    hide Fresh;
    assert forall i :: 0 <= i < |h| ==> h[i] == g[i];
  }

  /** How good the device's copy is after reading log h: good up to `synced`, with frames from `q` on still to come. */
  ghost predicate CopyGood(c: Client, h: seq<Entry>, q: nat)
    reads c
  {
    GoodAfter(h, c.joinedSeq, c.syncedSeq, q, c.Shown())
  }

  ghost predicate GoodAfter(h: seq<Entry>, joined: nat, synced: nat, q: nat, v: View) {
    joined <= synced <= |h| && 0 < q <= synced + 1 && GoodView(h, joined, synced, q, |h|, v)
  }

  lemma {:induction false} SyncedIsLast(me: Account, m: Meta, h: seq<Entry>, rows: seq<nat>)
    requires ValidRows(h, rows) && Convergence.Ascending(rows)
    requires forall i :: 0 <= i < |rows| ==> m.synced < rows[i]
    ensures Delivered(me, m, h, rows).synced == LastOr(rows, m.synced)
    decreases |rows|
  {
    if rows != [] {
      var n := |rows| - 1;
      SyncedIsLast(me, m, h, rows[..n]);
      assert rows[..n] != [] ==> LastOr(rows[..n], m.synced) == rows[n - 1];
    }
  }

  /** With nothing expired a page leaves the copy as good as it was, as far as its last row. */
  lemma PageKeepsCopy(me: Account, h: seq<Entry>, g: seq<Entry>, joined: nat, q: nat, v: View, m: Meta, rule: Rule)
    requires HistoryOk(h) && HistoryOk(g) && h <= g && Current(g, rule) && GoodAfter(h, joined, m.synced, q, v)
    ensures
      var rows := Page(g, m.synced, PAGE_LIMIT);
      && ValidRows(g, rows)
      && var last := LastOr(rows, m.synced);
      && MetaAfter(me, g, m, rows, rule).synced == last
      && GoodAfter(g, joined, last, NextPending(m.synced, q, last), ViewAfter(g, v, rows, rule))
  {
    hide GoodView, RecordsOk, UniqueSurvivors, Page, Current, ApplyRows, Delivered, ViewAfter, MetaAfter;
    var rows := Page(g, m.synced, PAGE_LIMIT);
    GrowthKeepsView(h, g, joined, m.synced, q, |h|, v);
    PageKeepsView(g, joined, m.synced, q, |h|, v);
    PageShape(g, m.synced, PAGE_LIMIT);
    SyncedIsLast(me, m, g, rows);
    AfterAll(me, g, v, m, rows, rule);
  }

  /** What the loop keeps: what has been handled so far, and what that made of the device. */
  ghost predicate Progress(c: Client, schedule: seq<seq<Entry>>, n: nat, h: seq<Entry>, start: nat, after: nat,
                           view: View, before: Meta, handled: seq<nat>, rule: Rule)
    requires schedule != []
    reads c
  {
    && c.Valid() && ValidRows(h, handled) && start <= after <= |h|
    && Covered(schedule, n, h, start, after, handled)
    && c.Shown() == ViewAfter(h, view, handled, rule) && c.Record() == MetaAfter(c.me, h, before, handled, rule)
  }

  /** One turn of the loop: request n, handled. */
  method Request(c: Client, schedule: seq<seq<Entry>>, n: nat, after: nat, now: int, ghost h: seq<Entry>,
                 ghost q: nat, ghost start: nat, ghost view: View, ghost before: Meta, ghost handled: seq<nat>)
    returns (rows: seq<nat>, more: bool)
    requires Growing(schedule) && h <= At(schedule, n) && HistoryOk(h)
    requires Progress(c, schedule, n, h, start, after, view, before, handled, RuleOf(c, now))
    modifies c
    ensures c.joinedSeq == old(c.joinedSeq) && RuleOf(c, now) == old(RuleOf(c, now))
    ensures
      var g := At(schedule, n);
      && rows == Page(g, after, PAGE_LIMIT) && more == HasMore(g, after, PAGE_LIMIT)
      && Progress(c, schedule, n + 1, g, start, LastOr(rows, after), view, before, handled + rows, RuleOf(c, now))
      && (if more then after < LastOr(rows, after) else LastOr(rows, after) == |g|)
      && (old(CopyGood(c, h, q)) && after == old(c.syncedSeq) && Current(g, RuleOf(c, now)) ==>
            && c.syncedSeq == LastOr(rows, after)
            && CopyGood(c, g, NextPending(after, q, c.syncedSeq)))
  {
    hide GoodView, ViewAfter, MetaAfter, Covered, Growing, Current, RecordsOk, UniqueSurvivors, HasMore, Page, At;
    hide GoodAfter;
    StartIsNotEmpty(schedule);
    ghost var g, rule := At(schedule, n), RuleOf(c, now);
    ghost var was, record := c.Shown(), c.Record();
    AtGrows(schedule, n);
    CoverPage(schedule, n, h, start, after, handled);
    PageShape(At(schedule, n), after, PAGE_LIMIT);
    if old(CopyGood(c, h, q)) && after == c.syncedSeq && Current(g, rule) {
      PageKeepsCopy(c.me, h, g, c.joinedSeq, q, was, record, rule);
    }
    more := HasMore(At(schedule, n), after, PAGE_LIMIT);
    if !more {
      NoMoreMeansEnd(At(schedule, n), after);
    }
    rows := Page(At(schedule, n), after, PAGE_LIMIT);
    HandleRows(c, At(schedule, n), rows, now);
    AfterLonger(c.me, h, g, view, before, handled, rule);
    AfterJoins(c.me, g, view, before, handled, rows, rule);
  }

  lemma NoMoreMeansEnd(h: seq<Entry>, after: nat)
    requires HistoryOk(h) && after <= |h| && !HasMore(h, after, PAGE_LIMIT)
    ensures LastOr(Page(h, after, PAGE_LIMIT), after) == |h|
  {
    LastPageEnds(h, after, PAGE_LIMIT);
  }

  /**
   The backfill loop. It ends; it handles, once each and in ascending order, only rows
   after the start that were in the table, and every one the table has at the last
   request; and where no row has expired and nothing was pending the device ends with
   the messages of the log as the last request found it.
   */
  method Backfill(c: Client, schedule: seq<seq<Entry>>, now: int, ghost q: nat)
    returns (handled: seq<nat>, requests: nat)
    requires c.Valid() && Growing(schedule) && Max(c.syncedSeq, c.joinedSeq) <= |schedule[0]|
    modifies c
    ensures requests > 0 && c.joinedSeq == old(c.joinedSeq) && RuleOf(c, now) == old(RuleOf(c, now))
    ensures
      var h, start := At(schedule, requests - 1), Max(old(c.syncedSeq), c.joinedSeq);
      && Progress(c, schedule, requests, h, start, |h|, old(c.Shown()), old(c.Record()), handled, RuleOf(c, now))
      && (old(CopyGood(c, schedule[0], q)) && Current(h, RuleOf(c, now)) ==>
            && c.syncedSeq == |h| && CopyGood(c, h, NextPending(start, q, |h|))
            && (q == start + 1 ==> ViewAgrees(h, c.joinedSeq, |h|, c.Shown())))
  {
    hide Progress, Growing, Current, HasMore, Page, GoodAfter, Covered, HistoryOk, At;
    StartIsNotEmpty(schedule);
    AtGrows(schedule, 0);
    var after: nat := Max(c.syncedSeq, c.joinedSeq);
    ghost var start, view, before, rule := after, c.Shown(), c.Record(), RuleOf(c, now);
    ghost var h, pending, good := schedule[0], q, CopyGood(c, schedule[0], q);
    handled, requests := [], 0;
    StartsWithNothing(c, schedule, start, rule);
    CopyBounds(c, schedule[0], q);
    while true
      invariant Progress(c, schedule, requests, h, start, after, view, before, handled, rule)
      invariant HistoryOk(h) && h <= At(schedule, requests) && start <= after <= |h|
      invariant c.joinedSeq == old(c.joinedSeq) && RuleOf(c, now) == rule
      invariant good && Current(h, rule) ==> after == c.syncedSeq && CopyGood(c, h, pending)
      invariant good ==> pending == if q == start + 1 then after + 1 else q
      invariant requests >= |schedule| ==> |h| == |End(schedule)|
      invariant requests == 0 || h == At(schedule, requests - 1)
      decreases if requests < |schedule| then |schedule| - requests else 0, |End(schedule)| - after
    {
      AtGrows(schedule, requests);
      if good {
        CurrentBefore(h, At(schedule, requests), rule);
      }
      var rows, more := Request(c, schedule, requests, after, now, h, pending, start, view, before, handled);
      handled := handled + rows;
      pending := NextPending(after, pending, LastOr(rows, after));
      after := Max(after, LastOr(rows, after));
      h := At(schedule, requests);
      ProgressBounds(c, schedule, requests + 1, h, start, after, view, before, handled, rule);
      requests := requests + 1;
      if !more {
        break;
      }
    }
    if good && Current(h, rule) && q == start + 1 {
      CopyAgrees(c, h);
    }
  }

  lemma StartIsNotEmpty(schedule: seq<seq<Entry>>)
    requires Growing(schedule)
    ensures schedule != [] && At(schedule, 0) == schedule[0]
  {}

  lemma StartsWithNothing(c: Client, schedule: seq<seq<Entry>>, start: nat, rule: Rule)
    requires schedule != [] && c.Valid() && start <= |schedule[0]|
    ensures Progress(c, schedule, 0, schedule[0], start, start, c.Shown(), c.Record(), [], rule)
  {
    CoverNothing(schedule, schedule[0], start);
    AfterNone(c.me, schedule[0], c.Shown(), c.Record(), rule);
  }

  lemma ProgressBounds(c: Client, schedule: seq<seq<Entry>>, n: nat, h: seq<Entry>, start: nat, after: nat,
                       view: View, before: Meta, handled: seq<nat>, rule: Rule)
    requires schedule != [] && Progress(c, schedule, n, h, start, after, view, before, handled, rule)
    ensures c.Valid() && start <= after <= |h|
  {}

  lemma CurrentBefore(h: seq<Entry>, g: seq<Entry>, rule: Rule)
    requires h <= g
    ensures Current(g, rule) ==> Current(h, rule)
  {
    if Current(g, rule) { CurrentPrefix(h, g, rule); }
  }

  lemma CopyBounds(c: Client, h: seq<Entry>, q: nat)
    ensures CopyGood(c, h, q) ==> c.joinedSeq <= c.syncedSeq <= |h| && 0 < q <= c.syncedSeq + 1
  {
    hide GoodView;
  }

  lemma CopyAgrees(c: Client, h: seq<Entry>)
    requires HistoryOk(h) && CopyGood(c, h, |h| + 1) && c.syncedSeq == |h|
    ensures ViewAgrees(h, c.joinedSeq, |h|, c.Shown())
  {
    ViewIsExact(h, c.joinedSeq, |h|, c.Shown());
  }

  /** While the log stands still the loop handles exactly the surviving rows after the start. */
  lemma StillLogIsListed(h: seq<Entry>, n: nat, start: nat, handled: seq<nat>, r: nat)
    requires Covered([h], n, h, start, |h|, handled)
    ensures r in handled <==> start < r <= |h| && !Deleted(h, r, |h|)
  {
    hide Deleted;
    assert forall j: nat :: At([h], j) == h;
  }

  // --- A live frame ------------------------------------------------------------------------------

  /** Frames arrive in order, so what frame f finds still to come starts with f itself, or with nothing. */
  function PendingAt(synced: nat, f: nat): nat {
    if f <= synced then f else synced + 1
  }

  lemma FrameKeepsView(h: seq<Entry>, joined: nat, synced: nat, f: nat, v: View)
    requires HistoryOk(h) && joined < f <= |h| && f <= synced + 1
    requires GoodAfter(h, joined, synced, PendingAt(synced, f), v)
    ensures GoodAfter(h, joined, Max(synced, f), PendingAt(Max(synced, f), f + 1), StepView(v, f, h[f - 1]))
  {
    hide GoodView, StepView, RecordsOk, UniqueSurvivors;
    if f <= synced {
      ReplayKeepsView(h, joined, synced, f, |h|, v);
    } else {
      AdvanceKeepsView(h, joined, synced, f, f, |h|, v);
    }
  }

  lemma FrameKeepsCopy(me: Account, h: seq<Entry>, joined: nat, f: nat, v: View, m: Meta, rule: Rule)
    requires HistoryOk(h) && joined < f <= |h| && f <= m.synced + 1 && Current(h, rule)
    requires GoodAfter(h, joined, m.synced, PendingAt(m.synced, f), v)
    ensures
      var after := Max(m.synced, f);
      && ValidRows(h, [f]) && MetaAfter(me, h, m, [f], rule).synced == after
      && GoodAfter(h, joined, after, PendingAt(after, f + 1), ViewAfter(h, v, [f], rule))
  {
    assert Fresh(h[f - 1], rule);
    AfterOne(me, h, v, m, f, rule);
    hide Current, Fresh, ViewAfter, MetaAfter;
    FrameKeepsView(h, joined, m.synced, f, v);
    hide GoodAfter, StepView, HistoryOk;
  }

  /** Where nothing is pending the copy is good for frame f, whichever it is. */
  lemma CopyWaits(c: Client, h: seq<Entry>, f: nat)
    requires RecordsOk(h) && CopyGood(c, h, c.syncedSeq + 1) && 0 < f
    ensures CopyGood(c, h, PendingAt(c.syncedSeq, f))
  {
    ViewWeakens(h, c.joinedSeq, c.syncedSeq, c.syncedSeq + 1, PendingAt(c.syncedSeq, f), |h|, |h|, c.Shown());
    hide GoodView;
  }

  /**
   A frame that leaves a gap waits for a backfill; any frame is then handled, even one
   that was covered already. Where no row has expired the copy stays good for the frames
   that follow, and agrees with the log when the frame is its newest row.
   */
  method OnLiveMessage(c: Client, schedule: seq<seq<Entry>>, f: nat, now: int)
    returns (ghost h: seq<Entry>, ghost handled: seq<nat>)
    requires c.Valid() && Growing(schedule) && c.joinedSeq < f <= |schedule[0]|
    requires Max(c.syncedSeq, c.joinedSeq) <= |schedule[0]|
    modifies c
    ensures c.Valid() && c.joinedSeq == old(c.joinedSeq) && RuleOf(c, now) == old(RuleOf(c, now))
    ensures h in schedule && f <= |h| && ValidRows(h, handled + [f])
    ensures c.Shown() == ViewAfter(h, old(c.Shown()), handled + [f], RuleOf(c, now))
    ensures c.Record() == MetaAfter(c.me, h, old(c.Record()), handled + [f], RuleOf(c, now))
    ensures
      var start := Max(old(c.syncedSeq), c.joinedSeq);
      if f <= start + 1 then h == schedule[0] && handled == []
      else exists n: nat :: n > 0 && h == At(schedule, n - 1) && Covered(schedule, n, h, start, |h|, handled)
    ensures old(CopyGood(c, schedule[0], PendingAt(c.syncedSeq, f))) && Current(h, RuleOf(c, now)) ==>
      && CopyGood(c, h, PendingAt(c.syncedSeq, f + 1))
      && c.syncedSeq == (if f <= old(c.syncedSeq) + 1 then Max(old(c.syncedSeq), f) else |h|)
      && (f == |h| ==> ViewAgrees(h, c.joinedSeq, |h|, c.Shown()))
  {
    hide Growing, Current, HistoryOk, Covered, ViewAfter, MetaAfter, At, GoodAfter;
    StartIsNotEmpty(schedule);
    ghost var view, before, rule, good :=
      c.Shown(), c.Record(), RuleOf(c, now), CopyGood(c, schedule[0], PendingAt(c.syncedSeq, f));
    CopyBounds(c, schedule[0], PendingAt(c.syncedSeq, f));
    var at := 0;
    handled := [];
    AfterNone(c.me, schedule[0], view, before, rule);
    if f > Max(c.syncedSeq, c.joinedSeq) + 1 {
      var rows, requests := Backfill(c, schedule, now, c.syncedSeq + 1);
      handled, at := rows, requests - 1;
    }
    h := At(schedule, at);
    AtGrows(schedule, at);
    AtFollows(schedule, at, f);
    if good && Current(h, rule) {
      FrameFits(c, h, f, old(c.syncedSeq));
      FrameKeepsCopy(c.me, h, c.joinedSeq, f, c.Shown(), c.Record(), rule);
    }
    AfterOne(c.me, h, c.Shown(), c.Record(), f, rule);
    AfterJoins(c.me, h, view, before, handled, [f], rule);
    c.HandleIncoming(f, At(schedule, at)[f - 1], now);
    if good && Current(h, rule) && f == |h| {
      CopyBounds(c, h, PendingAt(c.syncedSeq, f + 1));
      CopyAgrees(c, h);
    }
  }

  lemma FrameFits(c: Client, h: seq<Entry>, f: nat, was: nat)
    requires HistoryOk(h) && 0 < f <= |h|
    requires if f <= was + 1 then c.syncedSeq == was && CopyGood(c, h, PendingAt(was, f))
             else c.syncedSeq == |h| && CopyGood(c, h, |h| + 1)
    ensures CopyGood(c, h, PendingAt(c.syncedSeq, f)) && f <= c.syncedSeq + 1
  {
    hide GoodAfter, RecordsOk, UniqueSurvivors;
    if f > was + 1 { CopyWaits(c, h, f); }
  }

  lemma AtFollows(schedule: seq<seq<Entry>>, n: nat, f: nat)
    requires Growing(schedule) && 0 < f <= |schedule[0]|
    ensures At(schedule, n) in schedule && f <= |At(schedule, n)| && At(schedule, n)[f - 1] == schedule[0][f - 1]
  {
    hide HistoryOk;
    var i := if n < |schedule| then n else |schedule| - 1;
    assert schedule[0] <= schedule[i];
  }
}
