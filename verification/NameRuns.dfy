/**
 Which names a device can show once it has caught up: exactly those of the rows the log
 itself marks, and for each of them there is a run that ends with its name.
 */
module NameRuns {
  import opened Wrappers
  import opened History
  import opened Convergence
  import opened Roster
  import opened Runs
  import opened Drops
  import opened Names
  import Screen

  // --- Runs put together ---------------------------------------------------------------------

  ghost predicate Leads(me: Account, d: Device, v: Device, all: bool) {
    exists run :: Plays(me, d, run, all) && Played(me, d, run, all) == v
  }

  lemma LeadsNowhere(me: Account, d: Device, all: bool)
    ensures Leads(me, d, d, all)
  {
    assert Plays(me, d, [], all) && Played(me, d, [], all) == d;
  }

  lemma StepLeads(me: Account, d: Device, a: Action, all: bool)
    requires Sane(d.w) && Enabled(d.w, a) && KeepsNames(d.w, a, all)
    ensures Leads(me, d, Acts(me, d, a), all)
  {
    hide Sane, Enabled, KeepsNames, Acts;
    var v := Acts(me, d, a);
    assert [a][1..] == [];
    assert Plays(me, v, [], all);
    assert Plays(me, d, [a], all) && Played(me, d, [a], all) == v;
  }

  lemma {:induction false} PlaysJoin(me: Account, d: Device, one: seq<Action>, two: seq<Action>, all: bool)
    requires Plays(me, d, one, all) && Plays(me, Played(me, d, one, all), two, all)
    ensures Plays(me, d, one + two, all)
    ensures Played(me, d, one + two, all) == Played(me, Played(me, d, one, all), two, all)
    decreases |one|
  {
    hide Sane, Enabled, KeepsNames, Acts;
    if one == [] {
      assert one + two == two;
    } else {
      PlaysJoin(me, Acts(me, d, one[0]), one[1..], two, all);
      assert (one + two)[1..] == one[1..] + two;
    }
  }

  lemma LeadsOn(me: Account, d: Device, v: Device, u: Device, all: bool)
    requires Leads(me, d, v, all) && Leads(me, v, u, all)
    ensures Leads(me, d, u, all)
  {
    hide Plays, Played;
    var one :| Plays(me, d, one, all) && Played(me, d, one, all) == v;
    var two :| Plays(me, v, two, all) && Played(me, v, two, all) == u;
    PlaysJoin(me, d, one, two, all);
  }

  lemma LeadsKnown(me: Account, d: Device, v: Device, name0: string, all: bool)
    requires KnownAt(d, name0, all) && Leads(me, d, v, all)
    ensures KnownAt(v, name0, all)
  {
    hide KnownAt, Plays, Played;
    var run :| Plays(me, d, run, all) && Played(me, d, run, all) == v;
    KnownRun(me, d, run, name0, all);
  }

  lemma {:induction false} PlayedJoined(me: Account, d: Device, run: seq<Action>, all: bool)
    requires Plays(me, d, run, all)
    ensures Played(me, d, run, all).w.joined == d.w.joined
    decreases |run|
  {
    hide Sane, Enabled, KeepsNames, Acts;
    if run != [] {
      ActsIsNext(me, d, run[0]);
      OneStepGrows(d.w, run[0]);
      PlayedJoined(me, Acts(me, d, run[0]), run[1..], all);
    }
  }

  lemma LeadsJoined(me: Account, d: Device, v: Device, all: bool)
    requires Leads(me, d, v, all)
    ensures v.w.joined == d.w.joined
  {
    var run :| Plays(me, d, run, all) && Played(me, d, run, all) == v;
    PlayedJoined(me, d, run, all);
  }

  // --- Stretches of a run ----------------------------------------------------------------------

  function Grown(d: Device, h: seq<Entry>): Device {
    Device(d.w.(h := h), d.m)
  }

  /** The device after a whole backfill. */
  ghost function Reads(me: Account, d: Device): Device
    requires Sane(d.w)
  {
    RowsSurvive(d.w.h, d.w.synced + 1);
    Device(ReadOn(d.w), Delivered(me, d.m, d.w.h, RowsFrom(d.w.h, d.w.synced + 1)))
  }

  /** The device after the frames before f, which a backfill covered already. */
  ghost function Replays(me: Account, d: Device, f: nat): Device
    requires d.w.link.Online? && 0 < d.w.link.next <= f <= |d.w.h| + 1
  {
    Device(PlayedOn(d.w, f), Delivered(me, d.m, d.w.h, AllRows(d.w.link.next - 1, f - 1)))
  }

  lemma {:induction false} AppendsLead(me: Account, d: Device, h: seq<Entry>, n: nat, all: bool)
    requires Sane(d.w) && HistoryOk(h) && d.w.h <= h && |d.w.h| <= n <= |h|
    ensures Leads(me, d, Grown(d, h[..n]), all) && Sane(Grown(d, h[..n]).w)
    decreases n
  {
    hide RecordsOk, UniqueSurvivors, Leads;
    if n == |d.w.h| {
      assert h[..n] == d.w.h;
      LeadsNowhere(me, d, all);
    } else {
      AppendsLead(me, d, h, n - 1, all);
      var v := Grown(d, h[..n - 1]);
      var e := h[n - 1];
      assert v.w.h + [e] == h[..n];
      PrefixIsHistory(h, n);
      SaneStays(v.w, Append(e));
      StepLeads(me, v, Append(e), all);
      LeadsOn(me, d, v, Grown(d, h[..n]), all);
    }
  }

  lemma PageMoves(w: World)
    requires Sane(w) && w.task.Backfill? && HasMore(w.h, w.task.after, PAGE_LIMIT)
    ensures AfterPage(w).synced == LastOr(Page(w.h, w.synced, PAGE_LIMIT), w.synced) > w.synced
  {
    RowsSurvive(w.h, w.synced + 1);
    hide RowsFrom, Deleted, RecordsOk, UniqueSurvivors, ApplyRows;
  }

  lemma MorePages(me: Account, m: Meta, h: seq<Entry>, n: nat)
    requires n <= |h| && HasMore(h, n, PAGE_LIMIT)
    ensures
      var page, rows := Page(h, n, PAGE_LIMIT), RowsFrom(h, n + 1);
      && ValidRows(h, rows) && ValidRows(h, page) && ValidRows(h, RowsFrom(h, LastOr(page, n) + 1))
      && Delivered(me, Delivered(me, m, h, page), h, RowsFrom(h, LastOr(page, n) + 1)) == Delivered(me, m, h, rows)
  {
    hide RowsFrom, Delivered, Page, HasMore;
    PageSplits(h, n);
    DeliveredJoins(me, m, h, Page(h, n, PAGE_LIMIT), RowsFrom(h, LastOr(Page(h, n, PAGE_LIMIT), n) + 1));
  }

  /** Page after page. */
  lemma {:induction false} PagesLead(me: Account, d: Device, all: bool)
    requires Sane(d.w) && d.w.task == Backfill(d.w.synced, None)
    ensures Leads(me, d, Reads(me, d), all) && Sane(Reads(me, d).w)
    decreases |d.w.h| - d.w.synced
  {
    hide RecordsOk, UniqueSurvivors, Leads, RowsFrom, ApplyRows, Page, HasMore, Deleted, Delivered, Acts;
    var h, n := d.w.h, d.w.synced;
    var rows, page := RowsFrom(h, n + 1), Page(h, n, PAGE_LIMIT);
    RowsSurvive(h, n + 1);
    PageIsPrefix(h, n, PAGE_LIMIT);
    SaneStays(d.w, FetchPage);
    FetchActs(me, d);
    StepLeads(me, d, FetchPage, all);
    SanePage(d.w);
    var v := Acts(me, d, FetchPage);
    if HasMore(h, n, PAGE_LIMIT) {
      RowsSplit(h, d.w.view, n);
      MorePages(me, d.m, h, n);
      PageMoves(d.w);
      PagesLead(me, v, all);
      assert Reads(me, v) == Reads(me, d);
      LeadsOn(me, d, v, Reads(me, d), all);
    } else {
      LastPageEnds(h, n, PAGE_LIMIT);
      assert v == Reads(me, d);
    }
  }

  /** A whole backfill. */
  lemma BackfillLeads(me: Account, d: Device, all: bool)
    requires Sane(d.w) && d.w.task.Idle?
    ensures Leads(me, d, Reads(me, d), all) && Sane(Reads(me, d).w)
  {
    hide RecordsOk, UniqueSurvivors, Leads, RowsFrom, ApplyRows;
    var v := Acts(me, d, StartBackfill);
    StepLeads(me, d, StartBackfill, all);
    PagesLead(me, v, all);
    assert Reads(me, v) == Reads(me, d);
    LeadsOn(me, d, v, Reads(me, d), all);
  }

  /** The log grows to n rows, and the device reads them. */
  lemma ReadsUpTo(me: Account, d: Device, h: seq<Entry>, n: nat, all: bool)
    requires Sane(d.w) && d.w.task.Idle? && HistoryOk(h) && d.w.h <= h && |d.w.h| <= n <= |h|
    ensures Sane(Grown(d, h[..n]).w) && Sane(Reads(me, Grown(d, h[..n])).w)
    ensures Leads(me, d, Reads(me, Grown(d, h[..n])), all)
  {
    hide RecordsOk, UniqueSurvivors, Leads, Reads;
    var g := Grown(d, h[..n]);
    AppendsLead(me, d, h, n, all);
    BackfillLeads(me, g, all);
    LeadsOn(me, d, g, Reads(me, g), all);
  }

  /** One frame that a backfill covered already. */
  lemma FrameLeads(me: Account, d: Device, all: bool)
    requires Sane(d.w) && d.w.task.Idle? && d.w.link.Online? && d.w.link.next <= d.w.synced
    ensures
      var f := d.w.link.next;
      var v := Device(d.w.(view := Screen.StepView(d.w.view, f, d.w.h[f - 1]), link := Online(f + 1)),
                      MetaStep(me, d.m, f, d.w.h[f - 1]));
      0 < f && Leads(me, d, v, all) && Sane(v.w)
  {
    hide RecordsOk, UniqueSurvivors, Leads, Screen.StepView, MetaStep, Delivered;
    SaneStays(d.w, Live);
    LiveActs(me, d);
    StepLeads(me, d, Live, all);
  }

  lemma PlaysOn(w: World, f: nat)
    requires w.link.Online? && 0 < w.link.next < f <= |w.h| + 1
    ensures
      var v := PlayedOn(w, f - 1);
      PlayedOn(w, f) == v.(view := Screen.StepView(v.view, f - 1, w.h[f - 2]), link := Online(f))
  {
    ReplaySplits(w.h, w.view, w.link.next, f - 2, f - 1);
    hide Screen.StepView;
  }

  lemma PlaysNothing(me: Account, d: Device)
    requires d.w.link.Online? && 0 < d.w.link.next <= |d.w.h| + 1
    ensures Replays(me, d, d.w.link.next) == d
  {}

  /** Frames that a backfill covered already. */
  lemma {:induction false} FramesLead(me: Account, d: Device, f: nat, all: bool)
    requires Sane(d.w) && d.w.task.Idle? && d.w.link.Online? && 0 < d.w.link.next <= f <= d.w.synced + 1
    ensures Leads(me, d, Replays(me, d, f), all) && Sane(Replays(me, d, f).w)
    decreases f
  {
    hide RecordsOk, UniqueSurvivors, Leads, Screen.StepView, MetaStep, Delivered, Replay;
    if d.w.link.next == f {
      PlaysNothing(me, d);
      LeadsNowhere(me, d, all);
    } else {
      FramesLead(me, d, f - 1, all);
      var v := Replays(me, d, f - 1);
      FrameLeads(me, v, all);
      PlaysOn(d.w, f);
      DeliveredLast(me, d.m, d.w.h, AllRows(d.w.link.next - 1, f - 2), f - 1);
      LeadsOn(me, d, v, Replays(me, d, f), all);
    }
  }

  lemma ConnectLeads(me: Account, d: Device, all: bool)
    requires Sane(d.w) && d.w.link.Offline?
    ensures
      var v := Device(d.w.(link := Online(|d.w.h| + 1)), d.m);
      Leads(me, d, v, all) && Sane(v.w)
  {
    SaneStays(d.w, Connect);
    StepLeads(me, d, Connect, all);
    assert Acts(me, d, Connect) == Device(d.w.(link := Online(|d.w.h| + 1)), d.m);
    hide RecordsOk, UniqueSurvivors, Leads;
  }

  lemma DropLeads(me: Account, d: Device, all: bool)
    requires Sane(d.w) && d.w.link.Online? && KeepsNames(d.w, Drop, all)
    ensures
      var v := Device(d.w.(link := Offline), d.m);
      Leads(me, d, v, all) && Sane(v.w)
  {
    SaneStays(d.w, Drop);
    StepLeads(me, d, Drop, all);
    assert Acts(me, d, Drop) == Device(d.w.(link := Offline), d.m);
    hide RecordsOk, UniqueSurvivors, Leads;
  }

  // --- What they do to the name ----------------------------------------------------------------

  /** Rows that the roster in force outranks do not name the conversation. */
  lemma {:induction false} NameStays(me: Account, m: Meta, h: seq<Entry>, rows: seq<nat>)
    requires ValidRows(h, rows) && forall i :: 0 <= i < |rows| && NameRow(h, rows[i]) ==> rows[i] <= m.rosterSeq
    ensures Delivered(me, m, h, rows).name == m.name && m.rosterSeq <= Delivered(me, m, h, rows).rosterSeq
    decreases |rows|
  {
    if rows != [] {
      var n := |rows| - 1;
      NameStays(me, m, h, rows[..n]);
      RowActs(me, Delivered(me, m, h, rows[..n]), rows[n], h[rows[n] - 1]);
      assert NameRow(h, rows[n]) <==> IsName(h[rows[n] - 1]);
      hide MetaStep, IsName, IsRoster, TitleOf;
    }
  }

  /** What a backfill delivers. */
  lemma ReadsMeta(me: Account, d: Device)
    requires Sane(d.w)
    ensures
      var h, rows := d.w.h, RowsFrom(d.w.h, d.w.synced + 1);
      && RecordsOk(h) && d.w.synced <= |h|
      && ValidRows(h, rows) && Ascending(rows) && Reads(me, d).m == Delivered(me, d.m, h, rows)
      && forall i :: 0 <= i < |rows| ==> d.w.synced < rows[i] <= |h| && !Deleted(h, rows[i], |h|)
  {
    RowsSurvive(d.w.h, d.w.synced + 1);
    hide RowsFrom, Delivered, ReadOn, Deleted, RecordsOk, UniqueSurvivors;
  }

  /** Every naming row that is left was read. */
  lemma ReadKeepsName(me: Account, d: Device)
    requires Sane(d.w) && NamesGone(d.w.h, d.w.synced, |d.w.h|, |d.w.h|)
    ensures Reads(me, d).m.name == d.m.name
  {
    hide Sane, Reads, RowsFrom, Delivered, NameRow, Deleted, Ascending, RecordsOk;
    ReadsMeta(me, d);
    NameStays(me, d.m, d.w.h, RowsFrom(d.w.h, d.w.synced + 1));
  }

  /** The newest of the rows is a naming row, and no roster among them reaches it. */
  lemma LastNames(me: Account, m: Meta, h: seq<Entry>, rows: seq<nat>, i: nat)
    requires ValidRows(h, rows) && rows != [] && rows[|rows| - 1] == i && NameRow(h, i) && m.rosterSeq < i
    requires forall k :: 0 <= k < |rows| - 1 && RosterRow(h, rows[k]) ==> rows[k] < i
    ensures Delivered(me, m, h, rows).name == TitleOf(h[i - 1])
  {
    var rest := rows[..|rows| - 1];
    assert rows == rest + [i];
    RosterBelow(me, m, h, rest, i);
    DeliveredLast(me, m, h, rest, i);
    RowActsAt(me, Delivered(me, m, h, rest), h, i);
    hide Delivered, MetaStep, IsName, TitleOf;
  }

  /** The newest row is a naming row. */
  lemma ReadTakesName(me: Account, d: Device)
    requires Sane(d.w) && d.w.synced < |d.w.h| && NameRow(d.w.h, |d.w.h|) && d.m.rosterSeq < |d.w.h|
    ensures Reads(me, d).m.name == TitleOf(d.w.h[|d.w.h| - 1])
  {
    hide Sane, Reads, RowsFrom, Delivered, NameRow, RosterRow, TitleOf, Deleted, RecordsOk;
    ReadsMeta(me, d);
    RowsReachTheEnd(d.w.h, d.w.synced + 1);
    NameRowNames(d.w.h, |d.w.h|);
    LastNames(me, d.m, d.w.h, RowsFrom(d.w.h, d.w.synced + 1), |d.w.h|);
  }

  lemma NameRowNames(h: seq<Entry>, i: nat)
    requires NameRow(h, i)
    ensures 0 < i <= |h| && IsName(h[i - 1])
  {}

  // --- Which rows may give the name --------------------------------------------------------------

  /**
   Row i may be handled again when the device has read s rows: no roster it read then outranks
   row i, and every naming row after s is gone unread. Where no name is lost, a roster that was
   read later must have outranked every naming row there was.
   */
  ghost predicate Again(h: seq<Entry>, i: nat, s: nat, all: bool) {
    && i <= s <= |h| && Unranked(h, i, s) && NamesGone(h, s, |h|, |h|)
    && (all ==> Passed(h, |h|, |h|, s))
  }

  /** Row i may have the last word on the name; 0 stands for the name from before the joining point. */
  ghost predicate MayName(h: seq<Entry>, joined: nat, i: nat, all: bool) {
    if i == 0 then joined <= |h| && NamesGone(h, joined, |h|, |h|)
    else
      && joined < i && NameRow(h, i)
      && (NamesGone(h, i, |h|, |h|) || exists s: nat :: Again(h, i, s, all))
  }

  function NameFrom(h: seq<Entry>, i: nat, name0: string): string
    requires i == 0 || NameRow(h, i)
  {
    if i == 0 then name0 else TitleOf(h[i - 1])
  }

  /** Some run of a device that learns of the conversation at `joined` with record m ends with d. */
  ghost predicate Arises(me: Account, d: Device, h: seq<Entry>, joined: nat, m: Meta, all: bool) {
    exists start: Device :: Initial(start.w) && start.w.joined == joined && start.m == m && Leads(me, start, d, all)
                            && d.w.h == h
  }

  /** Caught up with every row of the log. */
  predicate Finished(w: World) {
    CaughtUp(w) && w.synced == |w.h|
  }

  /** A device can catch up with the log h and show name x. */
  ghost predicate Shows(me: Account, h: seq<Entry>, joined: nat, m: Meta, x: string, all: bool) {
    exists d :: Arises(me, d, h, joined, m, all) && Finished(d.w) && d.m.name == x
  }

  lemma InitialKnown(d: Device, all: bool)
    requires Initial(d.w) && d.m.rosterSeq <= d.w.joined
    ensures KnownAt(d, d.m.name, all)
  {
    var h, n := d.w.h, d.w.joined;
    assert NamesGone(h, Max(0, n), n, Bound(d.w));
    assert NamedBy(h, n, n, 0, d.m.name, d.m.name);
    hide RecordsOk, UniqueSurvivors, NameRow, RosterRow;
  }

  /** What a device that has caught up knows. */
  lemma KnownAtTheEnd(w: World, m: Meta, name0: string, all: bool) returns (i: nat)
    requires KnownAt(Device(w, m), name0, all) && Finished(w)
    ensures MayName(w.h, w.joined, i, all) && NameFrom(w.h, i, name0) == m.name
  {
    var h, n, p := w.h, |w.h|, Pending(w);
    hide RecordsOk, UniqueSurvivors, NameRow, RosterRow, TitleOf, NamesGone, Unranked, Passed, RosterKnown;
    i :| NamedBy(h, w.joined, n, i, m.name, name0) && Source(h, w.joined, n, n, p, m.rosterSeq, i, all);
    if i > 0 && !NamesGone(h, i, n, n) {
      var s: nat :| Stale(h, w.joined, n, n, p, m.rosterSeq, i, s, all);
      assert Again(h, i, s, all);
    }
  }

  lemma ShownMayName(me: Account, h: seq<Entry>, joined: nat, m: Meta, x: string, all: bool) returns (i: nat)
    requires joined <= |h| && m.rosterSeq <= joined && Shows(me, h, joined, m, x, all)
    ensures MayName(h, joined, i, all) && NameFrom(h, i, m.name) == x
  {
    hide Sane, KnownAt, Leads, NameFrom, MayName;
    var d :| Arises(me, d, h, joined, m, all) && Finished(d.w) && d.m.name == x;
    var start: Device :| Initial(start.w) && start.w.joined == joined && start.m == m && Leads(me, start, d, all)
                         && d.w.h == h;
    InitialKnown(start, all);
    LeadsKnown(me, start, d, m.name, all);
    LeadsJoined(me, start, d, all);
    i := KnownAtTheEnd(d.w, d.m, m.name, all);
  }

  // --- A run for each of them ------------------------------------------------------------------------

  function StartOf(h: seq<Entry>, joined: nat, m: Meta): Device
    requires joined <= |h|
  {
    Device(Start(h, joined), m)
  }

  lemma StartIsSane(h: seq<Entry>, joined: nat)
    requires HistoryOk(h) && joined <= |h|
    ensures Initial(Start(h, joined))
  {
    PrefixIsHistory(h, joined);
    hide HistoryOk;
  }

  /** The first n rows have the same kinds, and the records among them delete the same rows. */
  lemma PrefixRows(h: seq<Entry>, n: nat)
    requires n <= |h|
    ensures SameRows(h[..n], h)
  {
    GrowsRows(h[..n], h);
  }

  /** The device, offline, reads the rest, and no name is left in it. */
  lemma RestLeads(me: Account, v: Device, h: seq<Entry>, all: bool) returns (d: Device)
    requires Sane(v.w) && v.w.task.Idle? && v.w.link.Offline? && v.w.synced == |v.w.h| && v.w.h <= h
    requires HistoryOk(h) && NamesGone(h, |v.w.h|, |h|, |h|)
    ensures Leads(me, v, d, all) && d.w.h == h && Finished(d.w) && d.m.name == v.m.name
  {
    hide HistoryOk, Leads, NamesGone, Sane;
    assert h[..|h|] == h;
    ReadsUpTo(me, v, h, |h|, all);
    d := Reads(me, Grown(v, h));
    ReadKeepsName(me, Grown(v, h));
  }

  /** The device reads up to row i and then the rest, and no name is left in it. */
  lemma ReadTwice(me: Account, h: seq<Entry>, joined: nat, m: Meta, i: nat, all: bool) returns (d: Device)
    requires HistoryOk(h) && joined < i <= |h| && m.rosterSeq <= joined && NameRow(h, i) && NamesGone(h, i, |h|, |h|)
    ensures Leads(me, StartOf(h, joined, m), d, all) && d.w.h == h && Finished(d.w) && d.m.name == TitleOf(h[i - 1])
  {
    hide HistoryOk, Leads, NamesGone, IsName, TitleOf;
    var start, g := StartOf(h, joined, m), h[..i];
    StartIsSane(h, joined);
    ReadsUpTo(me, start, h, i, all);
    var v := Reads(me, Grown(start, g));
    ReadTakesName(me, Grown(start, g));
    d := RestLeads(me, v, h, all);
    LeadsOn(me, start, v, d, all);
  }

  /** No roster the device reads among the first s rows reaches row i. */
  lemma ReadsUnranked(me: Account, d: Device, h: seq<Entry>, i: nat)
    requires Sane(d.w) && d.w.h <= h && d.m.rosterSeq < i <= |d.w.h| && Unranked(h, i, |d.w.h|)
    ensures Reads(me, d).m.rosterSeq < i
  {
    hide Sane, Reads, RowsFrom, Delivered, Deleted, IsRoster, Ascending, RecordsOk;
    var g := d.w.h;
    GrowsRows(g, h);
    ReadsMeta(me, d);
    var rows := RowsFrom(g, d.w.synced + 1);
    forall k | 0 <= k < |rows| && IsRoster(g[rows[k] - 1])
      ensures rows[k] < i
    {
      assert RosterRow(g, rows[k]) && !Deleted(g, rows[k], |g|);
      assert RosterRow(h, rows[k]) && !Deleted(h, rows[k], |g|);
    }
    RosterBelow(me, d.m, g, rows, i);
  }

  /** A stale rename is handled again and takes effect. */
  lemma StaleWins(me: Account, h: seq<Entry>, joined: nat, m: Meta, i: nat, s: nat, all: bool) returns (d: Device)
    requires HistoryOk(h) && joined < i <= s <= |h| && m.rosterSeq <= joined && NameRow(h, i) && Unranked(h, i, s)
    ensures Leads(me, StartOf(h, joined, m), d, all) && Sane(d.w) && d.m.name == TitleOf(h[i - 1])
    ensures d.w.h == h[..s] && d.w.synced == s && d.w.link == Online(i + 1) && d.w.task.Idle?
  {
    hide HistoryOk, Leads, Unranked, TitleOf, Replay, IsName, IsRoster, Delivered;
    var d0, g := StartOf(h, joined, m), h[..s];
    StartIsSane(h, joined);
    ConnectLeads(me, d0, all);
    var d1 := Device(d0.w.(link := Online(joined + 1)), m);
    ReadsUpTo(me, d1, h, s, all);
    var d2 := Reads(me, Grown(d1, g));
    LeadsOn(me, d0, d1, d2, all);
    ReadsUnranked(me, Grown(d1, g), h, i);
    FramesLead(me, d2, i + 1, all);
    d := Replays(me, d2, i + 1);
    LeadsOn(me, d0, d2, d, all);
    assert NameRow(g, i);
    LastNames(me, d2.m, g, AllRows(joined, i), i);
  }

  /** The roster that outranks is read, and the frames up to it are handled. */
  lemma PassedLeads(me: Account, d: Device, h: seq<Entry>, s: nat, r: nat, l: nat) returns (v: Device)
    requires HistoryOk(h) && Sane(d.w) && Outranks(h, s, r, l)
    requires d.w.h == h[..s] && d.w.synced == s && d.w.link.Online? && 0 < d.w.link.next && d.w.task.Idle?
    ensures Leads(me, d, v, true) && Sane(v.w) && v.m.name == d.m.name
    ensures v.w.h == h[..l] && v.w.synced == l && v.w.link == Online(l + 1) && v.w.task.Idle?
  {
    hide HistoryOk, Leads, Replay, IsName, IsRoster, Delivered, NameRow, RosterRow, Deleted;
    var g := h[..l];
    PrefixRows(h, l);
    ReadsUpTo(me, d, h, l, true);
    var u := Reads(me, Grown(d, g));
    assert NamesGone(g, s, l, l);
    ReadKeepsName(me, Grown(d, g));
    ReadsRoster(me, Grown(d, g), r);
    FramesLead(me, u, l + 1, true);
    v := Replays(me, u, l + 1);
    LeadsOn(me, d, u, v, true);
    NameStays(me, u.m, g, AllRows(d.w.link.next - 1, l));
  }

  lemma ReadsRoster(me: Account, d: Device, r: nat)
    requires Sane(d.w) && d.w.synced < r && RosterRow(d.w.h, r) && !Deleted(d.w.h, r, |d.w.h|)
    ensures r <= Reads(me, d).m.rosterSeq
  {
    assert r <= |d.w.h| && IsRoster(d.w.h[r - 1]);
    hide *;
    ReadsMeta(me, d);
    SurvivorsAreRows(d.w.h, d.w.synced + 1, r);
    RosterReaches(me, d.m, d.w.h, RowsFrom(d.w.h, d.w.synced + 1), r);
  }

  lemma RosterReaches(me: Account, m: Meta, h: seq<Entry>, rows: seq<nat>, r: nat)
    requires ValidRows(h, rows) && r in rows && 0 < r <= |h| && IsRoster(h[r - 1])
    ensures r <= Delivered(me, m, h, rows).rosterSeq
  {
    hide Delivered, IsRoster;
    var t := NewestOf(h, rows, m.rosterSeq);
    RosterIsNewest(me, m, h, rows, t);
    var k :| 0 <= k < |rows| && rows[k] == r;
  }

  lemma AgainLeads(me: Account, h: seq<Entry>, joined: nat, m: Meta, i: nat, s: nat, all: bool) returns (d: Device)
    requires HistoryOk(h) && joined < i && m.rosterSeq <= joined && NameRow(h, i) && Again(h, i, s, all)
    ensures Leads(me, StartOf(h, joined, m), d, all) && d.w.h == h && Finished(d.w) && d.m.name == TitleOf(h[i - 1])
  {
    hide HistoryOk, Leads, Sane, Unranked, TitleOf, NameRow, NamesGone, Outranks;
    var start := StartOf(h, joined, m);
    var u := StaleWins(me, h, joined, m, i, s, all);
    if all {
      var r: nat, l: nat :| l <= |h| && Outranks(h, s, r, l) && NamesGone(h, l, |h|, |h|);
      var v := PassedLeads(me, u, h, s, r, l);
      LeadsOn(me, start, u, v, true);
      DropLeads(me, v, true);
      var off := Device(v.w.(link := Offline), v.m);
      LeadsOn(me, start, v, off, true);
      d := RestLeads(me, off, h, true);
      LeadsOn(me, start, off, d, true);
    } else {
      DropLeads(me, u, false);
      var off := Device(u.w.(link := Offline), u.m);
      LeadsOn(me, start, u, off, false);
      d := RestLeads(me, off, h, false);
      LeadsOn(me, start, off, d, false);
    }
  }

  lemma MayNameIsShown(me: Account, h: seq<Entry>, joined: nat, m: Meta, i: nat, all: bool)
    requires HistoryOk(h) && joined <= |h| && m.rosterSeq <= joined && MayName(h, joined, i, all)
    ensures Shows(me, h, joined, m, NameFrom(h, i, m.name), all)
  {
    hide HistoryOk, Leads, TitleOf, NameRow, NamesGone, Again;
    var start, d := StartOf(h, joined, m), StartOf(h, joined, m);
    StartIsSane(h, joined);
    if i == 0 {
      d := RestLeads(me, start, h, all);
    } else if NamesGone(h, i, |h|, |h|) {
      assert i <= |h| by { NameRowNames(h, i); }
      d := ReadTwice(me, h, joined, m, i, all);
    } else {
      var s: nat :| Again(h, i, s, all);
      d := AgainLeads(me, h, joined, m, i, s, all);
    }
    assert Arises(me, d, h, joined, m, all);
  }

  /**
   The name after catching up. Over all runs, x is one of the names a caught-up device can show
   exactly when it is the name of a row that the log lets have the last word.
   */
  lemma NamesExactly(me: Account, h: seq<Entry>, joined: nat, m: Meta, x: string, all: bool)
    requires HistoryOk(h) && joined <= |h| && m.rosterSeq <= joined
    ensures Shows(me, h, joined, m, x, all) <==>
            exists i: nat :: MayName(h, joined, i, all) && NameFrom(h, i, m.name) == x
  {
    hide HistoryOk, Shows, NamesGone, Again, TitleOf;
    if Shows(me, h, joined, m, x, all) {
      var i := ShownMayName(me, h, joined, m, x, all);
    }
    if i: nat :| MayName(h, joined, i, all) && NameFrom(h, i, m.name) == x {
      MayNameIsShown(me, h, joined, m, i, all);
    }
  }

  /**
   So every device that has caught up shows the newest name exactly when every row that may
   have the last word gives that one.
   */
  lemma NameIsNewestExactly(me: Account, h: seq<Entry>, joined: nat, m: Meta, all: bool)
    requires HistoryOk(h) && joined <= |h| && m.rosterSeq <= joined
    ensures
      var newest := NameFrom(h, NewestName(h, joined, |h|), m.name);
      (forall x :: Shows(me, h, joined, m, x, all) ==> x == newest) <==>
      (forall i: nat :: MayName(h, joined, i, all) ==> NameFrom(h, i, m.name) == newest)
  {
    hide HistoryOk, Shows, NamesGone, Again, TitleOf, NewestName;
    var newest := NameFrom(h, NewestName(h, joined, |h|), m.name);
    if forall x :: Shows(me, h, joined, m, x, all) ==> x == newest {
      forall i: nat | MayName(h, joined, i, all)
        ensures NameFrom(h, i, m.name) == newest
      {
        MayNameIsShown(me, h, joined, m, i, all);
      }
    }
    if forall i: nat :: MayName(h, joined, i, all) ==> NameFrom(h, i, m.name) == newest {
      forall x | Shows(me, h, joined, m, x, all)
        ensures x == newest
      {
        var i := ShownMayName(me, h, joined, m, x, all);
      }
    }
  }

  // --- Two instances -----------------------------------------------------------------------------------

  /** Two renames and a membership event: the device can end with the old name, though it loses none. */
  lemma OldNameCanStay(me: Account, m: Meta)
    requires m.rosterSeq == 0
    ensures
      var h := [Message(me, "1", 0, Rename("old")), Message(me, "2", 0, Rename("new")),
                Message(me, "3", 0, Membership([me]))];
      HistoryOk(h) && Shows(me, h, 0, m, "old", true) && Shows(me, h, 0, m, "new", true)
  {
    var h := [Message(me, "1", 0, Rename("old")), Message(me, "2", 0, Rename("new")),
              Message(me, "3", 0, Membership([me]))];
    assert HistoryOk(h);
    assert Again(h, 1, 2, true) by {
      assert Outranks(h, 2, 3, 3);
      assert NamesGone(h, 3, 3, 3);
    }
    assert MayName(h, 0, 1, true) && MayName(h, 0, 2, true);
    hide HistoryOk, Shows, MayName;
    MayNameIsShown(me, h, 0, m, 1, true);
    MayNameIsShown(me, h, 0, m, 2, true);
  }

  /** Two renames, and the newer one deleted: the device can end with either name. */
  lemma DeletedNameCanBeMissed(me: Account, m: Meta, a: Account)
    requires m.rosterSeq == 0
    ensures
      var h := DeletedName(a);
      HistoryOk(h) && Shows(me, h, 0, m, "old", true) && Shows(me, h, 0, m, "new", true)
  {
    var h := DeletedName(a);
    SecondDeletedHistory(h);
    assert MayName(h, 0, 1, true) && MayName(h, 0, 2, true);
    hide HistoryOk, Shows, MayName;
    MayNameIsShown(me, h, 0, m, 1, true);
    MayNameIsShown(me, h, 0, m, 2, true);
  }
}
