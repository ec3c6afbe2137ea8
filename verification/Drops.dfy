/**
 Exactly when a connection may be lost while frames are still to come: when those
 frames are spare. Otherwise some run leads to a device that is up to date by its own
 count and differs from the server's log, and it stays different.
 */
module Drops {
  import opened Wrappers
  import opened History
  import opened Replication
  import opened Screen
  import opened Convergence
  import opened Runs

  // --- Stretches of a run ---------------------------------------------------------------

  /** The server stores the rows up to n. */
  lemma {:induction false} Appends(w: World, h: seq<Entry>, n: nat)
    requires Inv(w) && HistoryOk(h) && w.h <= h && |w.h| <= n <= |h|
    ensures Reaches(w, w.(h := h[..n])) && Inv(w.(h := h[..n]))
    decreases n
  {
    hide GoodView, RecordsOk, UniqueSurvivors, Reaches;
    if n == |w.h| {
      assert h[..n] == w.h;
      ReachesItself(w);
    } else {
      Appends(w, h, n - 1);
      var v := w.(h := h[..n - 1]);
      assert v.h + [h[n - 1]] == h[..n];
      PrefixIsHistory(h, n);
      StepKeeps(v, Append(h[n - 1]));
      StepReaches(v, Append(h[n - 1]));
      ReachesOn(w, v, w.(h := h[..n]));
    }
  }

  /** A world whose device has read on to the newest row. */
  ghost function ReadOn(w: World): World
    requires Sane(w)
  {
    RowsSurvive(w.h, w.synced + 1);
    w.(view := ApplyRows(w.h, w.view, RowsFrom(w.h, w.synced + 1)), synced := |w.h|, hz := |w.h|, task := Idle)
  }

  /** A page and the rows after it. */
  lemma PageSplits(h: seq<Entry>, n: nat)
    requires n <= |h| && HasMore(h, n, PAGE_LIMIT)
    ensures
      var page := Page(h, n, PAGE_LIMIT);
      && ValidRows(h, page) && ValidRows(h, RowsFrom(h, LastOr(page, n) + 1)) && ValidRows(h, RowsFrom(h, n + 1))
      && page + RowsFrom(h, LastOr(page, n) + 1) == RowsFrom(h, n + 1)
  {
    hide RowsFrom;
    var rows := RowsFrom(h, n + 1);
    RowsSurvive(h, n + 1);
    PagesConcatenate(h, n + 1, PAGE_LIMIT);
    assert rows[..PAGE_LIMIT] + rows[PAGE_LIMIT..] == rows;
    RowsSurvive(h, LastOr(Page(h, n, PAGE_LIMIT), n) + 1);
  }

  lemma RowsSplit(h: seq<Entry>, v: View, n: nat)
    requires n <= |h| && HasMore(h, n, PAGE_LIMIT)
    ensures
      var page := Page(h, n, PAGE_LIMIT);
      && ValidRows(h, page) && ValidRows(h, RowsFrom(h, n + 1))
      && ValidRows(h, RowsFrom(h, LastOr(page, n) + 1))
      && ApplyRows(h, ApplyRows(h, v, page), RowsFrom(h, LastOr(page, n) + 1)) == ApplyRows(h, v, RowsFrom(h, n + 1))
  {
    hide RowsFrom, ApplyRows, Page, HasMore;
    PageSplits(h, n);
    AppliedJoins(h, v, Page(h, n, PAGE_LIMIT), RowsFrom(h, LastOr(Page(h, n, PAGE_LIMIT), n) + 1));
  }

  /** Page after page. */
  lemma {:induction false} PagesReach(w: World)
    requires Inv(w) && w.task == Backfill(w.synced, None)
    ensures Reaches(w, ReadOn(w)) && Inv(ReadOn(w))
    decreases |w.h| - w.synced
  {
    hide GoodView, RecordsOk, UniqueSurvivors, Reaches, RowsFrom, ApplyRows, Page, HasMore, Deleted;
    PageIsPrefix(w.h, w.synced, PAGE_LIMIT);
    PageStepKeeps(w);
    StepReaches(w, FetchPage);
    PageAdvances(w);
    PageKeeps(w);
    var v := Next(w, FetchPage);
    if HasMore(w.h, w.synced, PAGE_LIMIT) {
      RowsSplit(w.h, w.view, w.synced);
      PagesReach(v);
      assert ReadOn(v) == ReadOn(w);
      ReachesOn(w, v, ReadOn(w));
    } else {
      assert v == ReadOn(w);
    }
  }

  /** A whole backfill. */
  lemma BackfillReaches(w: World)
    requires Inv(w) && w.task.Idle?
    ensures Reaches(w, ReadOn(w)) && Inv(ReadOn(w))
  {
    hide GoodView, RecordsOk, UniqueSurvivors, Reaches, RowsFrom, ApplyRows;
    var v := Next(w, StartBackfill);
    StepKeeps(w, StartBackfill);
    StepReaches(w, StartBackfill);
    PagesReach(v);
    assert ReadOn(v) == ReadOn(w);
    ReachesOn(w, v, ReadOn(w));
  }

  /** A world whose device has handled again the frames up to f - 1. */
  ghost function PlayedOn(w: World, f: nat): World
    requires w.link.Online? && 0 < w.link.next && f <= |w.h| + 1
  {
    w.(view := if f == 0 then w.view else Replay(w.h, w.view, w.link.next, f - 1), link := Online(f))
  }

  /** Frames that a backfill covered already. */
  lemma {:induction false} FramesReach(w: World, f: nat)
    requires Inv(w) && w.task.Idle? && w.link.Online? && w.link.next <= f <= w.synced + 1
    ensures Reaches(w, PlayedOn(w, f)) && Inv(PlayedOn(w, f))
    decreases f - w.link.next
  {
    hide GoodView, RecordsOk, UniqueSurvivors, Reaches, StepView;
    if w.link.next == f {
      assert PlayedOn(w, f) == w;
      ReachesItself(w);
    } else {
      var v := Next(w, Live);
      StepKeeps(w, Live);
      StepReaches(w, Live);
      FramesReach(v, f);
      assert PlayedOn(v, f) == PlayedOn(w, f);
      ReachesOn(w, v, PlayedOn(w, f));
    }
  }

  // --- Runs that end in a given state ------------------------------------------------------

  /** All of h read, frames from f on still to come, nothing under way. */
  predicate Lags(w: World, h: seq<Entry>, joined: nat, f: nat) {
    w.h == h && w.joined == joined && w.synced == |h| && w.link == Online(f) && w.task.Idle?
  }

  /** A device that learns of the conversation at its joining point and connects. */
  function Start(h: seq<Entry>, joined: nat): World
    requires joined <= |h|
  {
    World(h[..joined], joined, View(map[], None), joined, joined, Offline, Idle)
  }

  /** The log grows to n rows, and the device reads them all. */
  function Read(h: seq<Entry>, joined: nat, n: nat, view: View): World
    requires joined <= n <= |h|
  {
    World(h[..n], joined, view, n, n, Online(joined + 1), Idle)
  }

  lemma StartReads(h: seq<Entry>, joined: nat, n: nat) returns (w: World)
    requires HistoryOk(h) && joined <= n <= |h|
    ensures Initial(Start(h, joined)) && Reaches(Start(h, joined), w) && Inv(w)
    ensures w == Read(h, joined, n, w.view) && w.view.shown.None?
  {
    hide GoodView, RecordsOk, UniqueSurvivors, Reaches, RowsFrom, ApplyRows;
    var w0 := Start(h, joined);
    PrefixIsHistory(h, joined);
    InitialInv(w0);
    StepKeeps(w0, Connect);
    StepReaches(w0, Connect);
    var w1 := Next(w0, Connect);
    Appends(w1, h, n);
    var w2 := w1.(h := h[..n]);
    BackfillReaches(w2);
    w := ReadOn(w2);
    ReachesOn(w0, w1, w2);
    ReachesOn(w0, w2, w);
    RowsSurvive(w2.h, joined + 1);
    NeverOpened(w2.h, w2.view, RowsFrom(w2.h, joined + 1));
  }

  lemma {:induction false} NeverOpened(h: seq<Entry>, v: View, rows: seq<nat>)
    requires ValidRows(h, rows) && v.shown.None?
    ensures ApplyRows(h, v, rows).shown.None?
    decreases |rows|
  {
    if rows != [] { NeverOpened(h, StepView(v, rows[0], h[rows[0] - 1]), rows[1..]); }
  }

  lemma {:induction false} NeverOpenedReplay(h: seq<Entry>, v: View, p: nat, n: nat)
    requires 0 < p && n <= |h| && v.shown.None?
    ensures Replay(h, v, p, n).shown.None?
    decreases n + 1 - p
  {
    if p <= n { NeverOpenedReplay(h, StepView(v, p, h[p - 1]), p + 1, n); }
  }

  // --- Replayed from the start ---------------------------------------------------------------

  /** Below p the store is the history up to p. */
  ghost predicate SameBelow(h: seq<Entry>, joined: nat, p: nat, x: Store)
    requires 0 < p <= |h| + 1
  {
    forall s: nat :: s < p ==>
      (s in x <==> s in Fold(h, joined, p - 1)) && (s in x ==> x[s] == Fold(h, joined, p - 1)[s])
  }

  lemma SameHits(h: seq<Entry>, joined: nat, p: nat, x: Store)
    requires 0 < p <= |h| && SameBelow(h, joined, p, x)
    ensures Hit(x, p, h[p - 1]) == Hit(Fold(h, joined, p - 1), p, h[p - 1])
  {
    hide Fold;
    var e, fold := h[p - 1], Fold(h, joined, p - 1);
    if e.Message? && e.payload.TextEdit? {
      var ref := e.payload.ref;
      forall s: nat | s < p
        ensures Matches(x, s, e.sender, ref) <==> Matches(fold, s, e.sender, ref)
      {}
      var a, b := Original(x, e.sender, ref), Original(fold, e.sender, ref);
      if a.Some? && a.value < p { assert Matches(fold, a.value, e.sender, ref); }
      if b.Some? && b.value < p { assert Matches(x, b.value, e.sender, ref); }
    }
  }

  lemma SameBelowStep(h: seq<Entry>, joined: nat, p: nat, x: Store)
    requires RecordsOk(h) && joined < p <= |h| && SameBelow(h, joined, p, x) && (p in x ==> IsPost(h[p - 1]))
    ensures SameBelow(h, joined, p + 1, Step(x, p, h[p - 1]))
  {
    var y, end := Step(x, p, h[p - 1]), p + 1;
    SameHits(h, joined, p, x);
    forall s: nat | s < end
      ensures s in y <==> s in Fold(h, joined, end - 1)
      ensures s in y ==> y[s] == Fold(h, joined, end - 1)[s]
    {
      if s == p { FoldHolds(h, joined, p - 1, p); }
      hide Hit;
    }
  }

  /** After the frames from the joining point to f - 1 are handled again. */
  lemma {:induction false} SameAfterReplay(h: seq<Entry>, joined: nat, synced: nat, p: nat, f: nat, v: View)
    requires HistoryOk(h) && joined < p <= f <= synced + 1 && synced <= |h|
    requires GoodView(h, joined, synced, p, synced, v) && SameBelow(h, joined, p, v.store)
    ensures SameBelow(h, joined, f, Replay(h, v, p, f - 1).store)
    decreases f - p
  {
    hide SameBelow, RecordsOk, UniqueSurvivors, Good, ShownGood;
    if p < f {
      if p in v.store { StoredIsPost(h, joined, synced, p, v.store, p); }
      SameBelowStep(h, joined, p, v.store);
      ReplayKeepsView(h, joined, synced, p, synced, v);
      SameAfterReplay(h, joined, synced, p + 1, f, StepView(v, p, h[p - 1]));
    }
  }

  lemma StoredIsPost(h: seq<Entry>, joined: nat, synced: nat, p: nat, x: Store, s: nat)
    requires synced <= |h| && 0 < p <= synced + 1 && Good(h, joined, synced, p, synced, x) && s in x
    ensures joined < s <= synced && IsPost(h[s - 1]) && Identity(x[s], h[s - 1])
  {
    assert GoodAt(h, joined, synced, p, synced, x, s);
  }

  lemma StartsSame(h: seq<Entry>, joined: nat, synced: nat, p: nat, x: Store)
    requires joined <= synced <= |h| && 0 < p <= synced + 1 && Good(h, joined, synced, p, synced, x)
    ensures SameBelow(h, joined, joined + 1, x)
  {
    var end := joined + 1;
    forall s: nat | s < end
      ensures s !in x && s !in Fold(h, joined, end - 1)
    {
      if s in x { StoredIsPost(h, joined, synced, p, x, s); }
    }
  }

  /** A run that handles everything up to f - 1 again: below f the store is that of the history up to f. */
  lemma LagsAfterReplay(h: seq<Entry>, joined: nat, f: nat) returns (w: World)
    requires HistoryOk(h) && joined < f <= |h|
    ensures Initial(Start(h, joined)) && Reaches(Start(h, joined), w) && Inv(w) && Lags(w, h, joined, f)
    ensures w.view.shown.None? && SameBelow(h, joined, f, w.view.store)
  {
    hide RecordsOk, UniqueSurvivors, Reaches, SameBelow, Good, Replay;
    var n := |h|;
    var v := StartReads(h, joined, n);
    assert h[..n] == h;
    FramesReach(v, f);
    w := PlayedOn(v, f);
    ReachesOn(Start(h, joined), v, w);
    NeverOpenedReplay(h, v.view, joined + 1, f - 1);
    ViewWeakens(h, joined, n, Pending(v), joined + 1, n, n, v.view);
    StartsSame(h, joined, n, joined + 1, v.view.store);
    SameAfterReplay(h, joined, n, joined + 1, f, v.view);
  }

  // --- An edit misled by a reused client id -----------------------------------------------------

  /** Message s is as it was posted, and an earlier message with its client id is in its way. */
  predicate Shadowed(x: Store, u: nat, s: nat) {
    && s in x && u in x && u < s && !x[s].edited
    && x[u].sender == x[s].sender && x[u].clientId == x[s].clientId
  }

  lemma ShadowStep(x: Store, u: nat, s: nat, r: nat, e: Entry)
    requires Shadowed(x, u, s) && s < r && e != Deletion(u) && e != Deletion(s)
    ensures Shadowed(Step(x, r, e), u, s)
  {
    if e.Message? && e.payload.TextEdit? && Matches(x, s, e.sender, e.payload.ref) {
      assert Matches(x, u, e.sender, e.payload.ref);
    }
  }

  /** No row after n removes message s. */
  predicate NotRemoved(h: seq<Entry>, s: nat, n: nat) {
    forall k :: n <= k < |h| ==> h[k] != Deletion(s)
  }

  /** Rows read after s: the edits of s land on the message in its way. */
  lemma {:induction false} ShadowStays(h: seq<Entry>, v: View, u: nat, s: nat, rows: seq<nat>)
    requires ValidRows(h, rows) && Shadowed(v.store, u, s)
    requires forall i :: 0 <= i < |rows| ==> s < rows[i]
    requires NotRemoved(h, u, s) && NotRemoved(h, s, s)
    ensures Shadowed(ApplyRows(h, v, rows).store, u, s)
    decreases |rows|
  {
    hide Shadowed;
    if rows != [] {
      ShadowStep(v.store, u, s, rows[0], h[rows[0] - 1]);
      ShadowStays(h, StepView(v, rows[0], h[rows[0] - 1]), u, s, rows[1..]);
    }
  }

  predicate AsPosted(x: Store, s: nat) {
    s in x && !x[s].edited
  }

  /** Frames below s handled again leave it alone. */
  lemma {:induction false} PostedStays(h: seq<Entry>, v: View, s: nat, p: nat, n: nat)
    requires RecordsOk(h) && 0 < p && n <= |h| && n < s && AsPosted(v.store, s)
    ensures AsPosted(Replay(h, v, p, n).store, s)
    decreases n + 1 - p
  {
    hide RecordsOk, AsPosted;
    if p <= n {
      assert AsPosted(Step(v.store, p, h[p - 1]), s) by {
        PostedStep(h, v.store, s, p);
      }
      PostedStays(h, StepView(v, p, h[p - 1]), s, p + 1, n);
    }
  }

  lemma PostedStep(h: seq<Entry>, x: Store, s: nat, p: nat)
    requires RecordsOk(h) && 0 < p <= |h| && p < s && AsPosted(x, s)
    ensures AsPosted(Step(x, p, h[p - 1]), s)
  {
    hide Original;
  }

  /** A message is deleted once. */
  lemma DeletedOnce(h: seq<Entry>, u: nat, n: nat)
    requires RecordsOk(h) && n <= |h| && Deleted(h, u, n)
    ensures NotRemoved(h, u, n)
  {
    forall k | n <= k < |h|
      ensures h[k] != Deletion(u)
    {
      DeletedLater(h, u, n, k);
      hide Deleted;
    }
  }

  lemma RepliesLast(h: seq<Entry>, v: View, p: nat, n: nat)
    requires 0 < p <= n <= |h| && IsPost(h[n - 1])
    ensures Replay(h, v, p, n).store == Replay(h, v, p, n - 1).store[n := Posted(h[n - 1])]
  {
    ReplaySplits(h, v, p, n - 1, n);
    var w := Replay(h, v, p, n - 1);
    assert Replay(h, w, n, n) == Replay(h, StepView(w, n, h[n - 1]), n + 1, n);
  }

  lemma {:induction false} ReplaySplits(h: seq<Entry>, v: View, p: nat, m: nat, n: nat)
    requires 0 < p <= m + 1 && m <= n <= |h|
    ensures Replay(h, v, p, n) == Replay(h, Replay(h, v, p, m), m + 1, n)
    decreases m + 1 - p
  {
    hide StepView;
    if p <= m { ReplaySplits(h, StepView(v, p, h[p - 1]), p + 1, m, n); }
  }

  /** Having read up to row s and handled again up to an earlier message u with its client id. */
  lemma ShadowArises(h: seq<Entry>, joined: nat, u: nat, s: nat) returns (w: World)
    requires HistoryOk(h) && joined < u && 0 < s <= |h| && Twin(h, u, s) && IsPost(h[s - 1])
    ensures Initial(Start(h, joined)) && Reaches(Start(h, joined), w) && Inv(w)
    ensures w.h == h[..s] && w.joined == joined && w.synced == s && w.link == Online(u + 1) && w.task.Idle?
    ensures w.view.shown.None? && Shadowed(w.view.store, u, s)
  {
    hide RecordsOk, UniqueSurvivors, Reaches, Good, Replay, Identity, TextAt, Fold, LastEdit, Step, Hit;
    var g := h[..s];
    var v := StartReads(h, joined, s);
    assert AsPosted(v.view.store, s) by {
      PrefixIsHistory(h, s);
      ViewWeakens(g, joined, s, Pending(v), joined + 1, s, s, v.view);
      NewestIsPosted(g, joined, joined + 1, v.view.store);
    }
    FramesReach(v, u + 1);
    w := PlayedOn(v, u + 1);
    ReachesOn(Start(h, joined), v, w);
    NeverOpenedReplay(g, v.view, joined + 1, u);
    PrefixIsHistory(h, s);
    PostedStays(g, v.view, s, joined + 1, u);
    RepliesLast(g, v.view, joined + 1, u);
    InvIdentity(w, s);
    assert Posted(h[u - 1]).sender == h[u - 1].sender && Posted(h[u - 1]).clientId == h[u - 1].clientId;
  }

  lemma InvIdentity(w: World, s: nat)
    requires Inv(w) && s in w.view.store
    ensures 0 < s <= |w.h| && IsPost(w.h[s - 1])
    ensures w.view.store[s].sender == w.h[s - 1].sender && w.view.store[s].clientId == w.h[s - 1].clientId
  {
    var p, x := Pending(w), w.view.store;
    assert GoodAt(w.h, w.joined, w.synced, p, w.hz, x, s);
  }

  /** The newest row, if a message, is stored as it was posted. */
  lemma NewestIsPosted(h: seq<Entry>, joined: nat, p: nat, x: Store)
    requires RecordsOk(h) && joined < |h| && 0 < p <= |h| && IsPost(h[|h| - 1])
    requires Good(h, joined, |h|, p, |h|, x)
    ensures AsPosted(x, |h|)
  {
    var n := |h|;
    assert GoodAt(h, joined, n, p, n, x, n);
    NotDeletedYet(h, n, n);
    FoldHolds(h, joined, n, n);
    LastEditDecides(h, joined, n, n);
    assert !Deleted(h, 0, n);
    hide Fold, LastEdit, RecordsOk, Deleted;
  }

  /** A run that ends with message s as it was posted, though it was edited. */
  lemma LagsAfterShadow(h: seq<Entry>, joined: nat, f: nat, u: nat, s: nat) returns (w: World)
    requires HistoryOk(h) && joined < u < f <= s <= |h| && Twin(h, u, s) && IsPost(h[s - 1]) && !Deleted(h, s, |h|)
    ensures Initial(Start(h, joined)) && Reaches(Start(h, joined), w) && Inv(w) && Lags(w, h, joined, f)
    ensures w.view.shown.None? && AsPosted(w.view.store, s)
  {
    hide RecordsOk, UniqueSurvivors, Reaches, Good, Replay, ApplyRows, RowsFrom, Initial;
    var v := ShadowArises(h, joined, u, s);
    var n := |h|;
    assert h[..n] == h;
    Appends(v, h, n);
    var grown := v.(h := h);
    ReachesOn(Start(h, joined), v, grown);
    assert Shadowed(ReadOn(grown).view.store, u, s) by {
      TwinIsDeleted(h, u, s);
      DeletedOnce(h, u, s);
      KeptIsNotRemoved(h, s);
      RowsSurvive(h, s + 1);
      hide Shadowed;
      ShadowStays(h, grown.view, u, s, RowsFrom(h, s + 1));
    }
    BackfillReaches(grown);
    var read := ReadOn(grown);
    ReachesOn(Start(h, joined), grown, read);
    FramesReach(read, f);
    w := PlayedOn(read, f);
    ReachesOn(Start(h, joined), read, w);
    PostedStays(h, read.view, s, u + 1, f - 1);
    RowsSurvive(h, s + 1);
    NeverOpened(h, grown.view, RowsFrom(h, s + 1));
    NeverOpenedReplay(h, read.view, u + 1, f - 1);
  }

  lemma TwinIsDeleted(h: seq<Entry>, u: nat, s: nat)
    requires UniqueSurvivors(h) && s <= |h| && Twin(h, u, s)
    ensures Deleted(h, u, s)
  {
    assert Deleted(h, u - 1 + 1, s - 1);
  }

  lemma KeptIsNotRemoved(h: seq<Entry>, s: nat)
    requires !Deleted(h, s, |h|)
    ensures NotRemoved(h, s, s)
  {}

  // --- The exact condition -----------------------------------------------------------------------

  /** Some allowed run of a device that learns of the conversation at `joined` ends with w. */
  ghost predicate Reachable(w: World, h: seq<Entry>, joined: nat) {
    exists start :: Initial(start) && start.joined == joined && Reaches(start, w) && w.h == h
  }

  lemma SparedAgrees(w: World, h: seq<Entry>, joined: nat, f: nat)
    requires HistoryOk(h) && 0 < f <= |h| + 1 && FramesSpare(h, joined, f, |h|, |h|)
    requires Reachable(w, h, joined) && Lags(w, h, joined, f)
    ensures ViewAgrees(h, joined, |h|, w.view)
  {
    hide RecordsOk, UniqueSurvivors, GoodView, Reaches, Initial, FramesSpare, ViewAgrees;
    var start :| Initial(start) && start.joined == joined && Reaches(start, w);
    InitialInv(start);
    ReachedKeeps(start, w);
    if f <= |h| {
      SpareFramesKeepView(h, joined, |h|, f, |h|, w.view);
    }
    ViewIsExact(h, joined, |h|, w.view);
  }

  /** The store has message s, and the fold of the first n rows has it not, or otherwise. */
  ghost predicate Differs(h: seq<Entry>, joined: nat, n: nat, x: Store, s: nat)
    requires n <= |h|
  {
    s in x && (s !in Fold(h, joined, n) || x[s] != Fold(h, joined, n)[s])
  }

  /** Where the frames are not spare, a run that ends with a message that is wrong. */
  lemma NotSpareDisagrees(h: seq<Entry>, joined: nat, f: nat) returns (w: World, s: nat)
    requires HistoryOk(h) && joined < f <= |h| + 1 && !FramesSpare(h, joined, f, |h|, |h|)
    ensures Reachable(w, h, joined) && Inv(w) && Lags(w, h, joined, f)
    ensures Differs(h, joined, |h|, w.view.store, s) && !ViewAgrees(h, joined, |h|, w.view)
  {
    hide RecordsOk, UniqueSurvivors, GoodView, Reaches, Initial, LastEdit, Identity;
    var n := |h|;
    assert f <= n;
    s :| !SpareBelow(h, joined, f, n, n, s) || !SpareBeyond(h, joined, f, n, n, s);
    if !SpareBelow(h, joined, f, n, n, s) {
      w := LagsAfterReplay(h, joined, f);
      FoldHolds(h, joined, f - 1, s);
      assert s in w.view.store && w.view.store[s] == Fold(h, joined, f - 1)[s];
    } else {
      var u: nat :| Twin(h, u, s) && joined < u < f;
      FoldHolds(h, joined, n, s);
      LastEditDecides(h, joined, n, s);
      w := LagsAfterShadow(h, joined, f, u, s);
    }
    assert Start(h, joined).joined == joined;
  }

  /**
   The frames f .. |h| may be lost exactly when they are spare: then, and only then, every
   run that ends with all of h read and those frames still to come has a copy that agrees
   with the log without them.
   */
  lemma LosingFramesExactly(h: seq<Entry>, joined: nat, f: nat)
    requires HistoryOk(h) && joined < f <= |h| + 1
    ensures FramesSpare(h, joined, f, |h|, |h|) <==>
            forall w :: Reachable(w, h, joined) && Lags(w, h, joined, f) ==> ViewAgrees(h, joined, |h|, w.view)
  {
    hide RecordsOk, UniqueSurvivors, Reachable, ViewAgrees, FramesSpare;
    if FramesSpare(h, joined, f, |h|, |h|) {
      forall w | Reachable(w, h, joined) && Lags(w, h, joined, f)
        ensures ViewAgrees(h, joined, |h|, w.view)
      {
        SparedAgrees(w, h, joined, f);
      }
    } else {
      var w, s := NotSpareDisagrees(h, joined, f);
    }
  }

  // --- What was lost stays lost --------------------------------------------------------------------

  /** Row e removes message s, or edits it. */
  predicate Touches(m: Stored, s: nat, e: Entry) {
    || e == Deletion(s)
    || (e.Message? && e.payload.TextEdit? && e.sender == m.sender && e.payload.ref == m.clientId)
  }

  /** The steps store no row that touches message s, and the user does not remove it. */
  predicate Leaves(run: seq<Action>, m: Stored, s: nat) {
    forall i :: 0 <= i < |run| ==> run[i] != Forget(s) && (run[i].Append? ==> !Touches(m, s, run[i].e))
  }

  predicate Untouched(h: seq<Entry>, from: nat, m: Stored, s: nat) {
    forall k :: from <= k < |h| ==> !Touches(m, s, h[k])
  }

  /** Message s is stored as m; the rows up to `from` have been handled, and none after it touches s. */
  ghost predicate Frozen(w: World, from: nat, m: Stored, s: nat) {
    && Sane(w) && s <= from <= w.synced && (w.link.Online? ==> from < w.link.next)
    && (Waiting(w) ==> from < w.task.frame.value)
    && s in w.view.store && w.view.store[s] == m && Untouched(w.h, from, m, s)
  }

  lemma FrozenRow(x: Store, m: Stored, s: nat, r: nat, e: Entry)
    requires s in x && x[s] == m && s < r && !Touches(m, s, e)
    ensures s in Step(x, r, e) && Step(x, r, e)[s] == m
  {
    hide Original;
  }

  lemma {:induction false} FrozenRows(h: seq<Entry>, v: View, from: nat, m: Stored, s: nat, rows: seq<nat>)
    requires ValidRows(h, rows) && Untouched(h, from, m, s) && s <= from && s in v.store && v.store[s] == m
    requires forall i :: 0 <= i < |rows| ==> from < rows[i]
    ensures s in ApplyRows(h, v, rows).store && ApplyRows(h, v, rows).store[s] == m
    decreases |rows|
  {
    hide Touches;
    if rows != [] {
      var k := rows[0] - 1;
      assert !Touches(m, s, h[k]);
      FrozenRow(v.store, m, s, rows[0], h[k]);
      FrozenRows(h, StepView(v, rows[0], h[k]), from, m, s, rows[1..]);
    }
  }

  lemma FrozenPage(w: World, from: nat, m: Stored, s: nat)
    requires Frozen(w, from, m, s) && w.task.Backfill?
    ensures s in AfterPage(w).view.store && AfterPage(w).view.store[s] == m
  {
    PageIsPrefix(w.h, w.synced, PAGE_LIMIT);
    RowsSurvive(w.h, w.synced + 1);
    hide RowsFrom, Touches, Deleted, RecordsOk, UniqueSurvivors;
    FrozenRows(w.h, w.view, from, m, s, Page(w.h, w.synced, PAGE_LIMIT));
  }

  lemma FrozenFrame(w: World, f: nat, from: nat, m: Stored, s: nat)
    requires s <= from < f <= |w.h| && s in w.view.store && w.view.store[s] == m && Untouched(w.h, from, m, s)
    ensures
      var v := HandleFrame(w, f);
      s in v.view.store && v.view.store[s] == m
  {
    var k := f - 1;
    assert !Touches(m, s, w.h[k]);
    FrozenRow(w.view.store, m, s, f, w.h[k]);
  }

  lemma FrozenStep(w: World, a: Action, from: nat, m: Stored, s: nat)
    requires Frozen(w, from, m, s) && Enabled(w, a)
    requires a != Forget(s) && (a.Append? ==> !Touches(m, s, a.e))
    ensures Frozen(Next(w, a), from, m, s)
  {
    hide RecordsOk, UniqueSurvivors, StepView, ApplyRows, Touches, Page, HasMore;
    SaneStays(w, a);
    match a
    case FetchPage =>
      SanePage(w);
      FrozenPage(w, from, m, s);
      if Waiting(w) { FrozenFrame(AfterPage(w), w.task.frame.value, from, m, s); }
    case Live => FrozenFrame(w, w.link.next, from, m, s);
    case _ =>
  }

  lemma {:induction false} FrozenRun(w: World, run: seq<Action>, from: nat, m: Stored, s: nat)
    requires Frozen(w, from, m, s) && Allowed(w, run) && Leaves(run, m, s)
    ensures Frozen(Exec(w, run), from, m, s)
    decreases |run|
  {
    hide Frozen, Enabled, Safe, Next, Touches;
    if run != [] {
      FrozenStep(w, run[0], from, m, s);
      FrozenRun(Next(w, run[0]), run[1..], from, m, s);
    }
  }

  /** Rows that leave message s alone leave it alone in the history, too. */
  lemma {:induction false} FoldFrozen(h: seq<Entry>, joined: nat, from: nat, n: nat, m: Stored, s: nat)
    requires RecordsOk(h) && s <= from <= n <= |h| && Untouched(h, from, m, s)
    requires s in Fold(h, joined, from) ==>
      Fold(h, joined, from)[s].sender == m.sender && Fold(h, joined, from)[s].clientId == m.clientId
    ensures s in Fold(h, joined, n) <==> s in Fold(h, joined, from)
    ensures s in Fold(h, joined, n) ==> Fold(h, joined, n)[s] == Fold(h, joined, from)[s]
    decreases n
  {
    if from < n {
      FoldFrozen(h, joined, from, n - 1, m, s);
      var k := n - 1;
      assert !Touches(m, s, h[k]);
      if s in Fold(h, joined, n - 1) && joined < n {
        FrozenIn(Fold(h, joined, n - 1), m, s, n, h[k]);
      }
      hide Hit;
    }
  }

  lemma FrozenIn(x: Store, m: Stored, s: nat, r: nat, e: Entry)
    requires s in x && x[s].sender == m.sender && x[s].clientId == m.clientId && s < r && !Touches(m, s, e)
    ensures s in Step(x, r, e) && Step(x, r, e)[s] == x[s]
  {
    FrozenRow(x, x[s], s, r, e);
  }

  lemma {:induction false} RunGrows(w: World, run: seq<Action>)
    requires Allowed(w, run)
    ensures w.h <= Exec(w, run).h && Exec(w, run).joined == w.joined
    decreases |run|
  {
    hide Sane, Enabled, Safe;
    if run != [] {
      OneStepGrows(w, run[0]);
      hide Next;
      RunGrows(Next(w, run[0]), run[1..]);
    }
  }

  lemma OneStepGrows(w: World, a: Action)
    requires Sane(w) && Enabled(w, a)
    ensures w.h <= Next(w, a).h && Next(w, a).joined == w.joined
  {
    hide RecordsOk, UniqueSurvivors, StepView, ApplyRows, RowsFrom;
  }

  lemma StillDiffers(w: World, run: seq<Action>, m: Stored, s: nat)
    requires Allowed(w, run) && Frozen(Exec(w, run), |w.h|, m, s)
    requires Differs(w.h, w.joined, |w.h|, w.view.store, s) && w.view.store[s] == m
    requires s in Fold(w.h, w.joined, |w.h|) ==>
      Fold(w.h, w.joined, |w.h|)[s].sender == m.sender && Fold(w.h, w.joined, |w.h|)[s].clientId == m.clientId
    ensures
      var end := Exec(w, run);
      && end.synced <= |end.h| && Differs(end.h, w.joined, end.synced, end.view.store, s)
      && end.view.store[s] == m
  {
    hide Fold, RecordsOk, UniqueSurvivors, Allowed, Exec, Untouched;
    var end := Exec(w, run);
    RunGrows(w, run);
    LongerSame(w.h, end.h, w.joined, |w.h|, s);
    FoldFrozen(end.h, w.joined, |w.h|, end.synced, m, s);
  }

  /**
   Frames that are not spare are lost for good. Some run leads to a state in which they are
   still to come; when the connection is lost there and made again, the device has all rows by
   its own count, and a message is wrong. Whatever happens later, as long as no later row
   removes or edits that message and its user does not, it is the same and it is wrong.
   */
  lemma LostForGood(h: seq<Entry>, joined: nat, f: nat) returns (w: World, s: nat)
    requires HistoryOk(h) && joined < f <= |h| + 1 && !FramesSpare(h, joined, f, |h|, |h|)
    ensures Reachable(w, h, joined) && Lags(w, h, joined, f) && Sane(w) && Sane(Next(w, Drop))
    ensures
      var back := Next(Next(w, Drop), Connect);
      && Sane(back) && CaughtUp(back) && Differs(h, joined, |h|, back.view.store, s)
      && forall run :: Allowed(back, run) && Leaves(run, back.view.store[s], s) ==>
           var end := Exec(back, run);
           && end.synced <= |end.h| && Differs(end.h, joined, end.synced, end.view.store, s)
           && end.view.store[s] == back.view.store[s]
  {
    w, s := NotSpareDisagrees(h, joined, f);
    InvIsSane(w);
    SaneStays(w, Drop);
    SaneStays(Next(w, Drop), Connect);
    var back := Next(Next(w, Drop), Connect);
    var m := back.view.store[s];
    assert s <= |h| && Frozen(back, |h|, m, s) by {
      InvIdentity(w, s);
    }
    if s in Fold(h, joined, |h|) {
      FoldHolds(h, joined, |h|, s);
      InvIdentity(w, s);
    }
    forall run | Allowed(back, run) && Leaves(run, m, s)
      ensures
        var end := Exec(back, run);
        && end.synced <= |end.h| && Differs(end.h, joined, end.synced, end.view.store, s)
        && end.view.store[s] == m
    {
      hide Reachable, Reaches, Inv, ViewAgrees, Fold, LastEdit, RecordsOk, UniqueSurvivors, FramesSpare;
      FrozenRun(back, run, |h|, m, s);
      StillDiffers(back, run, m, s);
      RunGrows(back, run);
    }
  }

  /** An edit is not spare: lost after its message was handled again, it is lost for good. */
  lemma DropWhileReplayingDiverges() returns (w: World, s: nat)
    ensures
      var h := EditedOnce();
      && HistoryOk(h) && !FramesSpare(h, 0, 2, 2, 2)
      && Reachable(w, h, 0) && Lags(w, h, 0, 2) && Sane(w) && Sane(Next(w, Drop))
      && var back := Next(Next(w, Drop), Connect);
         CaughtUp(back) && Differs(h, 0, 2, back.view.store, s)
  {
    hide RecordsOk, UniqueSurvivors, Reachable, Leaves, Allowed;
    var h := EditedOnce();
    EditedOnceFolds();
    assert HistoryOk(h);
    assert LastEdit(h, 0, 2, 1) == 2 && !Deleted(h, 2, 2) by {
      EditApplies();
      assert Hit(Fold(h, 0, 1), 2, h[1]) == Some(1) by {
        assert Matches(AsSent(), 1, "ann", "1");
      }
    }
    assert AsSent()[1] != AsEdited()[1];
    assert !SpareBelow(h, 0, 2, 2, 2, 1);
    w, s := LostForGood(h, 0, 2);
  }
}
