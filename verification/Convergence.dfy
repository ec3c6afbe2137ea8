/**
 A device and the server as one state machine: the server's log grows, the
 device pages through surviving rows, live frames arrive in order, and the
 connection comes and goes. However these interleave, a device that has seen
 the frames up to `synced` holds the messages of the whole history's plain fold,
 each with its final text unless the row of its last edit was deleted.
 */
module Convergence {
  import opened Wrappers
  import opened History
  import opened Replication
  import opened Screen

  // --- The table the device reads --------------------------------------------

  /** The surviving rows numbered s or above, in order. */
  function RowsFrom(h: seq<Entry>, s: nat): seq<nat>
    requires 0 < s
    decreases |h| + 1 - s
  {
    if s > |h| then [] else (if Deleted(h, s, |h|) then [] else [s]) + RowsFrom(h, s + 1)
  }

  /** One page: at most `limit` surviving rows after `after`. */
  function Page(h: seq<Entry>, after: nat, limit: nat): seq<nat> {
    var rows := RowsFrom(h, after + 1);
    if |rows| > limit then rows[..limit] else rows
  }

  function HasMore(h: seq<Entry>, after: nat, limit: nat): bool {
    |RowsFrom(h, after + 1)| > limit
  }

  predicate ValidRows(h: seq<Entry>, rows: seq<nat>) {
    forall i :: 0 <= i < |rows| ==> 0 < rows[i] <= |h|
  }

  predicate Ascending(rows: seq<nat>) {
    forall i, j :: 0 <= i < j < |rows| ==> rows[i] < rows[j]
  }

  /** Only surviving rows are listed, once each and in ascending order. */
  lemma {:induction false} RowsSurvive(h: seq<Entry>, s: nat)
    requires 0 < s
    ensures forall i :: 0 <= i < |RowsFrom(h, s)| ==>
              s <= RowsFrom(h, s)[i] <= |h| && !Deleted(h, RowsFrom(h, s)[i], |h|)
    ensures Ascending(RowsFrom(h, s)) && ValidRows(h, RowsFrom(h, s))
    decreases |h| + 1 - s
  {
    if s <= |h| { RowsSurvive(h, s + 1); }
  }

  /** Every surviving row is listed. */
  lemma {:induction false} SurvivorsAreRows(h: seq<Entry>, s: nat, r: nat)
    requires 0 < s <= r <= |h| && !Deleted(h, r, |h|)
    ensures r in RowsFrom(h, s)
    decreases |h| + 1 - s
  {
    if s < r { SurvivorsAreRows(h, s + 1, r); }
  }

  /** Everything below the first listed row is deleted, and the rest of the list starts after it. */
  lemma {:induction false} RowsHead(h: seq<Entry>, s: nat)
    requires 0 < s && RowsFrom(h, s) != []
    ensures
      var r := RowsFrom(h, s)[0];
      && s <= r <= |h| && Skipped(h, s - 1, r, |h|)
      && RowsFrom(h, s)[1..] == RowsFrom(h, r + 1)
    decreases |h| + 1 - s
  {
    if Deleted(h, s, |h|) { RowsHead(h, s + 1); }
  }

  /** The newest row is never deleted, so a list with no next page ends with it. */
  lemma {:induction false} RowsReachTheEnd(h: seq<Entry>, s: nat)
    requires RecordsOk(h) && 0 < s <= |h|
    ensures RowsFrom(h, s) != [] && RowsFrom(h, s)[|RowsFrom(h, s)| - 1] == |h|
    decreases |h| - s
  {
    if s < |h| {
      RowsReachTheEnd(h, s + 1);
    } else {
      NotDeletedYet(h, s, |h|);
      assert RowsFrom(h, s) == [s] + RowsFrom(h, s + 1);
    }
  }

  /** Reading page after page lists the same rows as one unlimited read. */
  lemma {:induction false} PagesConcatenate(h: seq<Entry>, s: nat, m: nat)
    requires 0 < s && 0 < m <= |RowsFrom(h, s)|
    ensures RowsFrom(h, s)[m..] == RowsFrom(h, RowsFrom(h, s)[m - 1] + 1)
    decreases m
  {
    hide RowsFrom;
    hide Deleted;
    hide Skipped;
    RowsHead(h, s);
    var rows := RowsFrom(h, s);
    if m > 1 {
      var rest := rows[1..];
      PagesConcatenate(h, rows[0] + 1, m - 1);
      assert rest[m - 1..] == rows[m..] && rest[m - 2] == rows[m - 1];
    }
  }

  ghost function ApplyRows(h: seq<Entry>, view: View, rows: seq<nat>): View
    requires ValidRows(h, rows)
    decreases |rows|
  {
    if rows == [] then view else ApplyRows(h, StepView(view, rows[0], h[rows[0] - 1]), rows[1..])
  }

  /** Messages that are listed already leave the list as it is, whatever they put back in the store. */
  lemma {:induction false} RepeatsAreNotShown(h: seq<Entry>, v: View, rows: seq<nat>)
    requires ValidRows(h, rows) && v.shown.Some?
    requires forall i :: 0 <= i < |rows| ==> IsPost(h[rows[i] - 1]) && rows[i] in v.shown.value
    ensures ApplyRows(h, v, rows).shown == v.shown
    decreases |rows|
  {
    if rows != [] {
      ListedStays(v.shown.value, v.store, rows[0], h[rows[0] - 1]);
      hide StepShown;
      RepeatsAreNotShown(h, StepView(v, rows[0], h[rows[0] - 1]), rows[1..]);
    }
  }

  lemma {:induction false} AppliedJoins(h: seq<Entry>, v: View, a: seq<nat>, b: seq<nat>)
    requires ValidRows(h, a) && ValidRows(h, b)
    ensures ValidRows(h, a + b) && ApplyRows(h, ApplyRows(h, v, a), b) == ApplyRows(h, v, a + b)
    decreases |a|
  {
    if a == [] {
      assert a + b == b;
    } else {
      AppliedJoins(h, StepView(v, a[0], h[a[0] - 1]), a[1..], b);
      assert (a + b)[1..] == a[1..] + b;
    }
  }

  function LastOr(rows: seq<nat>, synced: nat): nat {
    if rows == [] then synced else rows[|rows| - 1]
  }

  lemma PrefixTail(a: seq<nat>, b: seq<nat>)
    requires a != [] && a <= b
    ensures a[0] == b[0] && a[1..] <= b[1..]
  {}

  /** Handling the next surviving rows, as many as there may be, keeps the store good. */
  lemma {:induction false} ApplyRowsKeeps(h: seq<Entry>, joined: nat, synced: nat, p: nat, view: View, rows: seq<nat>)
    requires HistoryOk(h) && joined <= synced <= |h| && 0 < p <= synced + 1
    requires rows <= RowsFrom(h, synced + 1) && ValidRows(h, rows) && GoodView(h, joined, synced, p, |h|, view)
    ensures synced <= LastOr(rows, synced) <= |h|
    ensures
      var last := LastOr(rows, synced);
      GoodView(h, joined, last, NextPending(synced, p, last), |h|, ApplyRows(h, view, rows))
    decreases |rows|
  {
    hide HistoryOk, GoodView, Skipped, RowsFrom, StepView;
    if rows != [] {
      var r := rows[0];
      PrefixTail(rows, RowsFrom(h, synced + 1));
      RowsHead(h, synced + 1);
      AdvanceKeepsView(h, joined, synced, r, p, |h|, view);
      ApplyRowsKeeps(h, joined, r, NextPending(synced, p, r), StepView(view, r, h[r - 1]), rows[1..]);
    }
  }

  // --- The state machine -------------------------------------------------------

  /** `next` is the row the next live frame of this connection carries. */
  datatype Link = Offline | Online(next: nat)

  /** A backfill holds the conversation's lock; it may have been started by a frame that waits for it. */
  datatype Task = Idle | Backfill(after: nat, frame: Option<nat>)

  datatype World = World(
    h: seq<Entry>, joined: nat, view: View, synced: nat, hz: nat, link: Link, task: Task)

  datatype Action =
    | Append(e: Entry)     // the server stores a row and fans it out
    | Connect              // frames start with the next row to be stored
    | Drop                 // the connection ends; frames not yet handled are lost
    | StartBackfill
    | FetchPage            // one request and the handling of its rows
    | FailBackfill         // a request fails; a frame waiting for it is lost
    | Live                 // the next frame is handled
    | Open                 // the conversation is shown on screen
    | Forget(s: nat)       // the device removes a message right after the server deleted it

  const PAGE_LIMIT: nat := 200

  ghost predicate Enabled(w: World, a: Action) {
    match a
    case Append(e) => HistoryOk(w.h + [e])
    case Connect => w.link.Offline?
    case Drop => w.link.Online?
    case StartBackfill => w.task.Idle?
    case FetchPage => w.task.Backfill?
    case FailBackfill => w.task.Backfill?
    case Live => w.task.Idle? && w.link.Online? && w.link.next <= |w.h|
    case Open => w.view.shown.None?
    case Forget(s) => Deleted(w.h, s, |w.h|)
  }

  /**
   What a run may not do: lose frames the device still needs. A connection that ends
   loses the frames from `next` on; one that ended while a frame waited for its backfill
   lost those after that frame.
   */
  ghost predicate Safe(w: World, a: Action)
    requires Sane(w) && Enabled(w, a)
  {
    match a
    case Drop => Waiting(w) || w.synced < w.link.next || FramesSpare(w.h, w.joined, w.link.next, w.synced, w.hz)
    case FetchPage =>
      Waiting(w) && w.link != Online(w.task.frame.value + 1) && !HasMore(w.h, w.task.after, PAGE_LIMIT) ==>
        FramesSpare(w.h, w.joined, w.task.frame.value + 1, |w.h|, |w.h|)
    case _ => true
  }

  /** A frame waits for the backfill it started. */
  predicate Waiting(w: World) {
    w.task.Backfill? && w.task.frame.Some?
  }

  ghost predicate Sane(w: World) {
    && HistoryOk(w.h)
    && w.joined <= w.synced <= w.hz <= |w.h|
    && (w.link.Online? ==> w.joined < w.link.next <= |w.h| + 1)
    && (w.task.Backfill? ==> w.task.after == w.synced)
    && (Waiting(w) ==> w.joined < w.task.frame.value <= |w.h|
                       && (w.link.Online? ==> w.task.frame.value < w.link.next))
  }

  ghost function AfterPage(w: World): World
    requires Sane(w) && w.task.Backfill?
  {
    var rows := Page(w.h, w.task.after, PAGE_LIMIT);
    RowsSurvive(w.h, w.task.after + 1);
    var last := LastOr(rows, w.synced);
    w.(view := ApplyRows(w.h, w.view, rows), synced := last, hz := |w.h|, task := Backfill(last, w.task.frame))
  }

  ghost function HandleFrame(w: World, f: nat): World
    requires 0 < f <= |w.h|
  {
    w.(view := StepView(w.view, f, w.h[f - 1]), synced := Max(w.synced, f), hz := Max(w.hz, f))
  }

  ghost function Next(w: World, a: Action): World
    requires Sane(w) && Enabled(w, a)
  {
    match a
    case Append(e) => w.(h := w.h + [e])
    case Connect => w.(link := Online(|w.h| + 1))
    case Drop => w.(link := Offline)
    case StartBackfill => w.(task := Backfill(Max(w.synced, w.joined), None))
    case FetchPage =>
      var w' := AfterPage(w);
      if HasMore(w.h, w.task.after, PAGE_LIMIT) then w'
      else if w.task.frame.Some? then HandleFrame(w', w.task.frame.value).(task := Idle)
      else w'.(task := Idle)
    case FailBackfill => w.(task := Idle)
    case Live =>
      var f := w.link.next;
      if f > Max(w.synced, w.joined) + 1 then
        w.(link := Online(f + 1), task := Backfill(Max(w.synced, w.joined), Some(f)))
      else
        HandleFrame(w, f).(link := Online(f + 1))
    case Open => w.(view := View(w.view.store, Some(w.view.store)))
    case Forget(s) => w.(view := Without(w.view, s), hz := |w.h|)
  }

  /** The first frame whose replay is still to come. */
  function Pending(w: World): nat {
    if w.link.Offline? || Waiting(w) || w.synced < w.link.next then w.synced + 1 else w.link.next
  }

  ghost predicate Inv(w: World) {
    Sane(w) && GoodView(w.h, w.joined, w.synced, Pending(w), w.hz, w.view)
  }

  /** The device has just learned of the conversation: it knows nothing after the joining point. */
  ghost predicate Initial(w: World) {
    Sane(w) && w.view == View(map[], None) && w.synced == w.joined && w.task.Idle?
  }

  lemma InitialInv(w: World)
    requires Initial(w)
    ensures Inv(w)
  {
    ExactIsGood(w.h, w.joined, w.joined, Pending(w), w.hz);
  }

  // --- Every step keeps the invariant --------------------------------------------

  /** A longer log changes nothing about its first n rows. */
  lemma {:induction false} LongerSame(h: seq<Entry>, g: seq<Entry>, joined: nat, n: nat, s: nat)
    requires n <= |h| && h <= g
    ensures Fold(g, joined, n) == Fold(h, joined, n)
    ensures LastEdit(g, joined, n, s) == LastEdit(h, joined, n, s)
    ensures Deleted(g, s, n) <==> Deleted(h, s, n)
    decreases n
  {
    if 0 < n {
      LongerSame(h, g, joined, n - 1, s);
      DeletedStep(h, s, n);
      DeletedStep(g, s, n);
      assert h[n - 1] == g[n - 1];
    }
  }

  lemma GrowthKeepsText(h: seq<Entry>, g: seq<Entry>, joined: nat, synced: nat, p: nat, hz: nat, x: Store, s: nat)
    requires RecordsOk(h) && h <= g && synced <= hz <= |h| && 0 < p <= synced + 1
    requires TextAt(h, joined, synced, p, hz, x, s)
    ensures TextAt(g, joined, synced, p, hz, x, s)
  {
    LongerSame(h, g, joined, synced, s);
    LongerSame(h, g, joined, hz, LastEdit(h, joined, synced, s));
    LongerSame(h, g, joined, p - 1, s);
    FoldHolds(h, joined, synced, s);
    if s <= |h| { GrowthKeepsReused(h, g, joined, p, s); }
    hide Fold, LastEdit, Deleted, Identity, RecordsOk, Reused;
  }

  lemma GrowthKeepsReused(h: seq<Entry>, g: seq<Entry>, joined: nat, p: nat, s: nat)
    requires h <= g && s <= |h|
    ensures Reused(h, joined, p, s) ==> Reused(g, joined, p, s)
  {
    if Reused(h, joined, p, s) {
      var u: nat :| Twin(h, u, s) && joined < u < p;
      assert Twin(g, u, s);
    }
  }

  lemma GrowthKeepsView(h: seq<Entry>, g: seq<Entry>, joined: nat, synced: nat, p: nat, hz: nat, v: View)
    requires RecordsOk(h) && h <= g && synced <= hz <= |h| && 0 < p <= synced + 1
    requires GoodView(h, joined, synced, p, hz, v)
    ensures GoodView(g, joined, synced, p, hz, v)
  {
    hide Fold, LastEdit, Deleted, Identity, IsPost, TextAt, RecordsOk;
    forall s: nat ensures GoodAt(g, joined, synced, p, hz, v.store, s) {
      assert GoodAt(h, joined, synced, p, hz, v.store, s);
      LongerSame(h, g, joined, synced, s);
      LongerSame(h, g, joined, hz, s);
      LongerSame(h, g, joined, p - 1, s);
      GrowthKeepsText(h, g, joined, synced, p, hz, v.store, s);
    }
    if v.shown.Some? {
      forall s: nat ensures TextAt(g, joined, synced, p, hz, v.shown.value, s) {
        assert TextAt(h, joined, synced, p, hz, v.shown.value, s);
        GrowthKeepsText(h, g, joined, synced, p, hz, v.shown.value, s);
      }
    }
  }

  lemma AppendKeeps(w: World, e: Entry)
    requires Inv(w) && Enabled(w, Append(e))
    ensures Inv(Next(w, Append(e)))
  {
    GrowthKeepsView(w.h, w.h + [e], w.joined, w.synced, Pending(w), w.hz, w.view);
    hide GoodView, HistoryOk;
  }

  lemma PageIsPrefix(h: seq<Entry>, after: nat, limit: nat)
    ensures Page(h, after, limit) <= RowsFrom(h, after + 1) && ValidRows(h, Page(h, after, limit))
    ensures !HasMore(h, after, limit) ==> Page(h, after, limit) == RowsFrom(h, after + 1)
  {
    RowsSurvive(h, after + 1);
  }

  /** A page with no successor ends with the newest row. */
  lemma LastPageEnds(h: seq<Entry>, after: nat, limit: nat)
    requires RecordsOk(h) && after <= |h| && !HasMore(h, after, limit)
    ensures LastOr(Page(h, after, limit), after) == |h|
  {
    if after < |h| { RowsReachTheEnd(h, after + 1); }
  }

  /** Reading a page: the rows that come next, handled in order. */
  lemma PageKeeps(w: World)
    requires Inv(w) && w.task.Backfill?
    ensures Inv(AfterPage(w))
    ensures !HasMore(w.h, w.task.after, PAGE_LIMIT) ==> AfterPage(w).synced == |w.h|
  {
    hide GoodView, UniqueSurvivors, RecordsOk, RowsFrom, Page, HasMore, ApplyRows, ValidRows;
    var rows := Page(w.h, w.synced, PAGE_LIMIT);
    PageIsPrefix(w.h, w.synced, PAGE_LIMIT);
    ViewWeakens(w.h, w.joined, w.synced, Pending(w), Pending(w), w.hz, |w.h|, w.view);
    ApplyRowsKeeps(w.h, w.joined, w.synced, Pending(w), w.view, rows);
    if !HasMore(w.h, w.synced, PAGE_LIMIT) { LastPageEnds(w.h, w.synced, PAGE_LIMIT); }
    var w' := AfterPage(w);
    var q := NextPending(w.synced, Pending(w), w'.synced);
    ViewWeakens(w.h, w.joined, w'.synced, q, Pending(w'), |w.h|, |w.h|, w'.view);
  }

  lemma FrameKeeps(w: World, f: nat)
    requires Sane(w) && w.joined < f <= |w.h| && f <= w.synced + 1
    requires GoodView(w.h, w.joined, w.synced, f, w.hz, w.view)
    ensures
      var w' := HandleFrame(w, f);
      GoodView(w.h, w.joined, w'.synced, f + 1, w'.hz, w'.view)
  {
    if f <= w.synced {
      ReplayKeepsView(w.h, w.joined, w.synced, f, w.hz, w.view);
    } else {
      ViewWeakens(w.h, w.joined, w.synced, f, f, w.hz, Max(w.hz, f), w.view);
      AdvanceKeepsView(w.h, w.joined, w.synced, f, f, Max(w.hz, f), w.view);
    }
  }

  /** The frame that waited is handled; what was lost after it meanwhile can be spared. */
  lemma WaitedFrameKeeps(w: World, f: nat)
    requires Inv(w) && Waiting(w) && f == w.task.frame.value && f <= w.synced == |w.h|
    requires w.link != Online(f + 1) ==> FramesSpare(w.h, w.joined, f + 1, |w.h|, |w.h|)
    ensures Inv(HandleFrame(w, f).(task := Idle))
  {
    hide GoodView, FramesSpare, RecordsOk, UniqueSurvivors, HandleFrame;
    var u := HandleFrame(w, f).(task := Idle);
    ViewWeakens(w.h, w.joined, w.synced, Pending(w), f, w.hz, w.hz, w.view);
    FrameKeeps(w, f);
    HandledFrame(w, f);
    if w.link != Online(f + 1) {
      SpareFramesKeepView(u.h, u.joined, u.synced, f + 1, u.hz, u.view);
      ViewWeakens(u.h, u.joined, u.synced, u.synced + 1, Pending(u), u.hz, u.hz, u.view);
    }
  }

  lemma HandledFrame(w: World, f: nat)
    requires 0 < f <= |w.h|
    ensures
      var u := HandleFrame(w, f);
      u.h == w.h && u.joined == w.joined && u.link == w.link && u.synced == Max(w.synced, f) && u.hz == Max(w.hz, f)
  {}

  lemma PageStepKeeps(w: World)
    requires Inv(w) && w.task.Backfill? && Safe(w, FetchPage)
    ensures Inv(Next(w, FetchPage))
  {
    hide GoodView, FramesSpare, HistoryOk, HandleFrame, Page, HasMore;
    PageKeeps(w);
    var w' := AfterPage(w);
    if HasMore(w.h, w.task.after, PAGE_LIMIT) {
    } else if w.task.frame.Some? {
      WaitedFrameKeeps(w', w.task.frame.value);
    } else {
      assert Pending(w'.(task := Idle)) == Pending(w');
    }
  }

  lemma StepKeeps(w: World, a: Action)
    requires Inv(w) && Enabled(w, a) && Safe(w, a)
    ensures Inv(Next(w, a))
  {
    hide GoodView, FramesSpare, RecordsOk, UniqueSurvivors, Page, HasMore;
    match a
    case Append(e) => AppendKeeps(w, e);
    case FetchPage => PageStepKeeps(w);
    case Live =>
      if w.link.next <= w.synced + 1 { FrameKeeps(w, w.link.next); }
    case FailBackfill =>
      ViewWeakens(w.h, w.joined, w.synced, Pending(w), Pending(Next(w, a)), w.hz, w.hz, w.view);
    case Drop =>
      if !Waiting(w) && w.link.next <= w.synced {
        SpareFramesKeepView(w.h, w.joined, w.synced, w.link.next, w.hz, w.view);
      }
    case Open => LoadingKeepsView(w.h, w.joined, w.synced, Pending(w), w.hz, w.view);
    case Forget(s) =>
      ViewWeakens(w.h, w.joined, w.synced, Pending(w), Pending(w), w.hz, |w.h|, w.view);
      ForgettingKeepsView(w.h, w.joined, w.synced, Pending(w), |w.h|, w.view, s);
    case _ =>
  }

  // --- Whole runs ------------------------------------------------------------------

  ghost predicate Allowed(w: World, run: seq<Action>)
    decreases |run|
  {
    run == [] ||
    (Sane(w) && Enabled(w, run[0]) && Safe(w, run[0]) && Allowed(Next(w, run[0]), run[1..]))
  }

  ghost function Exec(w: World, run: seq<Action>): World
    requires Allowed(w, run)
    decreases |run|
  {
    if run == [] then w else Exec(Next(w, run[0]), run[1..])
  }

  lemma {:induction false} RunKeeps(w: World, run: seq<Action>)
    requires Inv(w) && Allowed(w, run)
    ensures Inv(Exec(w, run))
    decreases |run|
  {
    if run != [] {
      StepKeeps(w, run[0]);
      RunKeeps(Next(w, run[0]), run[1..]);
    }
  }

  lemma {:induction false} RunsJoin(w: World, one: seq<Action>, two: seq<Action>)
    requires Allowed(w, one) && Allowed(Exec(w, one), two)
    ensures Allowed(w, one + two) && Exec(w, one + two) == Exec(Exec(w, one), two)
    decreases |one|
  {
    hide Sane, Enabled, Safe, Next;
    if one == [] {
      assert one + two == two;
    } else {
      RunsJoin(Next(w, one[0]), one[1..], two);
      assert (one + two)[1..] == one[1..] + two;
    }
  }

  /** The frames have caught up with `synced`, and `synced` with the last read of the table. */
  predicate CaughtUp(w: World) {
    && (w.link.Online? ==> w.synced < w.link.next)
    && !Waiting(w)
    && w.hz <= w.synced
  }

  /**
   Convergence. Whatever the interleaving of appends, pages, failures, live frames, lost
   connections and reconnections, a device that has caught up stores and shows the messages
   of the plain fold of the history it may see, each with its final text unless the row of
   its last edit was deleted; where no such row was, it stores and shows the plain fold.
   */
  lemma Converges(w: World, run: seq<Action>)
    requires Initial(w) && Allowed(w, run)
    ensures
      var end := Exec(w, run);
      Inv(end) && (CaughtUp(end) ==>
        && ViewAgrees(end.h, end.joined, end.synced, end.view)
        && (LastEditsKept(end.h, end.joined, end.synced) ==>
              && end.view.store == Fold(end.h, end.joined, end.synced)
              && (end.view.shown.Some? ==> end.view.shown.value == Fold(end.h, end.joined, end.synced))))
  {
    InitialInv(w);
    RunKeeps(w, run);
    var end := Exec(w, run);
    if CaughtUp(end) {
      ViewIsExact(end.h, end.joined, end.synced, end.view);
      if LastEditsKept(end.h, end.joined, end.synced) {
        ViewAgreesExactly(end.h, end.joined, end.synced, end.view);
      }
    }
    hide LastEditsKept, ViewAgrees, GoodView, Exec, Fold;
  }

  ghost function Replay(h: seq<Entry>, view: View, p: nat, n: nat): View
    requires n <= |h| && 0 < p
    decreases n + 1 - p
  {
    if p > n then view else Replay(h, StepView(view, p, h[p - 1]), p + 1, n)
  }

  lemma {:induction false} ReplayRepairs(h: seq<Entry>, joined: nat, synced: nat, p: nat, view: View)
    requires HistoryOk(h) && joined < p <= synced + 1 && synced <= |h|
    requires GoodView(h, joined, synced, p, synced, view)
    ensures ViewAgrees(h, joined, synced, Replay(h, view, p, synced))
    decreases synced + 1 - p
  {
    hide GoodView, ViewAgrees, StepView, RecordsOk, UniqueSurvivors;
    if p <= synced {
      ReplayKeepsView(h, joined, synced, p, synced, view);
      ReplayRepairs(h, joined, synced, p + 1, StepView(view, p, h[p - 1]));
    } else {
      ViewIsExact(h, joined, synced, view);
    }
  }

  /** At every step of every run the frames still to come repair whatever is off. */
  lemma AlwaysRepairable(w: World, run: seq<Action>)
    requires Initial(w) && Allowed(w, run)
    ensures
      var end := Exec(w, run);
      Inv(end) && (end.hz <= end.synced ==>
        ViewAgrees(end.h, end.joined, end.synced, Replay(end.h, end.view, Pending(end), end.synced)))
  {
    InitialInv(w);
    RunKeeps(w, run);
    var end := Exec(w, run);
    if end.hz <= end.synced { ReplayRepairs(end.h, end.joined, end.synced, Pending(end), end.view); }
    hide ViewAgrees, GoodView, Exec, Replay;
  }

  /** A backfill that runs to its end has read everything the server had stored. */
  lemma BackfillReachesTheEnd(w: World)
    requires Inv(w) && w.task.Backfill? && !HasMore(w.h, w.task.after, PAGE_LIMIT)
    ensures
      var w' := Next(w, FetchPage);
      w'.task.Idle? && w'.synced == |w.h| && w'.hz == |w.h|
  {
    PageKeeps(w);
  }

  // --- An edit, kept and deleted -------------------------------------------------------

  /** A message and an edit of it. */
  function EditedOnce(): seq<Entry> {
    [Message("ann", "1", 0, Text("old", "")), Message("ann", "2", 0, TextEdit("1", "new"))]
  }

  /** The same, and a record that removes the edit's row. */
  function DeletedEdit(): seq<Entry> {
    EditedOnce() + [Deletion(2)]
  }

  function AsSent(): Store { map[1 := Posted(EditedOnce()[0])] }

  function AsEdited(): Store { map[1 := Rewritten(Posted(EditedOnce()[0]), "new")] }

  lemma EditApplies()
    ensures Step(AsSent(), 2, EditedOnce()[1]) == AsEdited()
  {
    assert Matches(AsSent(), 1, "ann", "1");
    assert Hit(AsSent(), 2, EditedOnce()[1]) == Some(1);
  }

  lemma EditedOnceFolds()
    ensures HistoryOk(EditedOnce())
    ensures Fold(EditedOnce(), 0, 1) == AsSent() && Fold(EditedOnce(), 0, 2) == AsEdited()
  {
    assert Fold(EditedOnce(), 0, 0) == map[];
    EditApplies();
  }

  /** Two messages, and a record that removes the second. */
  predicate SecondDeleted(h: seq<Entry>) {
    && |h| == 3 && h[0].Message? && h[1].Message? && h[2] == Deletion(2)
    && !SameClientId(h[0], h[1])
  }

  lemma SecondDeletedHistory(h: seq<Entry>)
    requires SecondDeleted(h)
    ensures HistoryOk(h) && RowsFrom(h, 1) == [1, 3]
    ensures Deleted(h, 2, 3) && !Deleted(h, 1, 3) && !Deleted(h, 3, 3)
  {
    assert Deleted(h, 2, 3) && !Deleted(h, 2, 2);
    assert HistoryOk(h);
    hide Deleted, HistoryOk;
    assert RowsFrom(h, 4) == [];
    assert RowsFrom(h, 3) == [3];
    assert RowsFrom(h, 2) == [3];
  }

  /** Where an edit's row is deleted, a late device shows other text than one that saw the edit. */
  lemma DeletedEditDiverges()
    ensures HistoryOk(DeletedEdit())
    ensures ValidRows(DeletedEdit(), RowsFrom(DeletedEdit(), 1))
    ensures ApplyRows(DeletedEdit(), View(map[], None), RowsFrom(DeletedEdit(), 1)).store != Fold(DeletedEdit(), 0, 3)
  {
    hide RowsFrom, HistoryOk;
    var h := DeletedEdit();
    SecondDeletedHistory(h);
    EditedOnceFolds();
    LongerSame(EditedOnce(), h, 0, 2, 1);
    assert Fold(h, 0, 3) == AsEdited();
    var empty: Store := map[];
    assert Step(empty, 1, h[0]) == AsSent();
    assert [1, 3][1..] == [3];
    var one := View(AsSent(), None);
    assert StepView(View(empty, None), 1, h[0]) == one;
    assert StepView(one, 3, h[2]) == one by { assert AsSent() - {2} == AsSent(); }
    assert ApplyRows(h, one, [3]) == ApplyRows(h, one, []);
    assert AsSent()[1] != AsEdited()[1];
  }
}
