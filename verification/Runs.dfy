/**
 Which worlds an allowed run leads to, and that catching up ends: reading pages and
 handling frames, in any order, leaves nothing to do after finitely many steps, and
 then the device has everything the server has.
 */
module Runs {
  import opened History
  import opened Replication
  import opened Screen
  import opened Convergence

  ghost predicate Reaches(w: World, v: World) {
    exists run :: Allowed(w, run) && Exec(w, run) == v
  }

  lemma ReachesItself(w: World)
    ensures Reaches(w, w)
  {
    assert Allowed(w, []) && Exec(w, []) == w;
  }

  lemma StepReaches(w: World, a: Action)
    requires Sane(w) && Enabled(w, a) && Safe(w, a)
    ensures Reaches(w, Next(w, a))
  {
    hide Sane, Enabled, Safe, Next;
    var v := Next(w, a);
    assert [a][1..] == [];
    assert Allowed(v, []);
    assert Allowed(w, [a]) && Exec(w, [a]) == v;
  }

  lemma ReachesOn(w: World, v: World, u: World)
    requires Reaches(w, v) && Reaches(v, u)
    ensures Reaches(w, u)
  {
    hide Allowed, Exec;
    var one :| Allowed(w, one) && Exec(w, one) == v;
    var two :| Allowed(v, two) && Exec(v, two) == u;
    RunsJoin(w, one, two);
  }

  lemma ReachedKeeps(w: World, v: World)
    requires Inv(w) && Reaches(w, v)
    ensures Inv(v)
  {
    hide Inv, Allowed, Exec;
    var run :| Allowed(w, run) && Exec(w, run) == v;
    RunKeeps(w, run);
  }

  lemma SanePage(w: World)
    requires Sane(w) && w.task.Backfill?
    ensures
      var v := AfterPage(w);
      && w.synced <= v.synced <= |w.h| && v.h == w.h && v.link == w.link && v.joined == w.joined
      && v.hz == |w.h| && v.task == Backfill(v.synced, w.task.frame)
  {
    PageIsPrefix(w.h, w.synced, PAGE_LIMIT);
    RowsSurvive(w.h, w.synced + 1);
    hide RowsFrom, Deleted, RecordsOk, UniqueSurvivors, ApplyRows;
  }

  lemma SaneStays(w: World, a: Action)
    requires Sane(w) && Enabled(w, a)
    ensures Sane(Next(w, a))
  {
    if a.FetchPage? { SanePage(w); }
    hide RecordsOk, UniqueSurvivors, StepView, AfterPage, Deleted, HasMore, Page;
  }

  lemma PrefixIsHistory(h: seq<Entry>, n: nat)
    requires HistoryOk(h) && n <= |h|
    ensures HistoryOk(h[..n])
  {
    var g := h[..n];
    forall i | 0 <= i < |g| && g[i].Deletion?
      ensures 0 < g[i].target <= i && g[g[i].target - 1].Message? && !Deleted(g, g[i].target, i)
    {
      assert h[i].Deletion? && !Deleted(h, h[i].target, i);
    }
    forall i, j | 0 <= i < j < |g| && SameClientId(g[i], g[j])
      ensures Deleted(g, i + 1, j)
    {
      assert SameClientId(h[i], h[j]) && Deleted(h, i + 1, j);
      var k :| 0 <= k < j && h[k] == Deletion(i + 1);
      assert g[k] == h[k];
    }
  }

  // --- Catching up --------------------------------------------------------------------

  predicate IsCatchUp(a: Action) {
    a.FetchPage? || a.Live?
  }

  /** The most that is left: rows to read, frames to handle, a backfill to finish. */
  function Work(w: World): int {
    |w.h| - w.synced + (if w.link.Online? then 2 * (|w.h| + 1 - w.link.next) else 0)
    + (if w.task.Backfill? then 1 else 0)
  }

  /** No frame was lost behind the one that waits. */
  predicate Gapless(w: World) {
    w.link.Online? && (Waiting(w) ==> w.link.next == w.task.frame.value + 1)
  }

  /** Nothing left to do. */
  predicate Quiet(w: World) {
    w.task.Idle? && w.link == Online(|w.h| + 1)
  }

  lemma PageAdvances(w: World)
    requires Inv(w) && w.task.Backfill?
    ensures HasMore(w.h, w.task.after, PAGE_LIMIT) ==> w.synced < AfterPage(w).synced
    ensures w.synced <= AfterPage(w).synced <= |w.h|
  {
    RowsSurvive(w.h, w.synced + 1);
    hide RowsFrom, ApplyRows, Deleted, GoodView;
    PageKeeps(w);
  }

  lemma CatchUpStep(w: World, a: Action)
    requires Inv(w) && Gapless(w) && IsCatchUp(a) && Enabled(w, a)
    ensures Safe(w, a)
    ensures
      var v := Next(w, a);
      Gapless(v) && v.h == w.h && 0 <= Work(v) < Work(w) && (Quiet(v) ==> v.synced == |w.h|)
  {
    hide GoodView, RecordsOk, UniqueSurvivors, ApplyRows, RowsFrom, Page, HasMore, StepView, FramesSpare;
    if a.FetchPage? {
      PageAdvances(w);
      PageKeeps(w);
    }
  }

  /** Catching up never gets stuck, and ends with all the server has. */
  lemma AlwaysSomethingToDo(w: World)
    requires Inv(w) && Gapless(w) && !Quiet(w)
    ensures exists a :: IsCatchUp(a) && Enabled(w, a) && Safe(w, a)
  {
    hide GoodView, RecordsOk, UniqueSurvivors, Safe, Inv;
    assert Sane(w) by { InvIsSane(w); }
    var a := if w.task.Backfill? then FetchPage else Live;
    assert IsCatchUp(a) && Enabled(w, a);
    CatchUpStep(w, a);
  }

  lemma InvIsSane(w: World)
    requires Inv(w)
    ensures Sane(w)
  {}

  /**
   Catching up ends. From any state a run reaches with the connection up and no frame lost
   behind one that waits, every run of page reads and frames is finite. It can go on until
   nothing is left; then, if there was anything to do, the device is caught up with every
   row the server has, and its copy agrees with the log.
   */
  lemma {:induction false} CatchingUpEnds(w: World, run: seq<Action>)
    requires Inv(w) && Gapless(w) && Allowed(w, run) && forall i :: 0 <= i < |run| ==> IsCatchUp(run[i])
    ensures |run| <= Work(w)
    ensures
      var end := Exec(w, run);
      && end.h == w.h && Inv(end) && Gapless(end)
      && (!Quiet(end) ==> exists a :: IsCatchUp(a) && Enabled(end, a) && Safe(end, a))
      && (Quiet(end) && (run != [] || w.synced == |w.h|) ==>
            && CaughtUp(end) && end.synced == |w.h| && ViewAgrees(w.h, end.joined, |w.h|, end.view))
    decreases |run|
  {
    hide GoodView, RecordsOk, UniqueSurvivors, ViewAgrees, Next, Safe, IsCatchUp;
    if run != [] {
      StepKeeps(w, run[0]);
      CatchUpStep(w, run[0]);
      CatchingUpEnds(Next(w, run[0]), run[1..]);
    } else {
      WorkIsLeft(w);
      if !Quiet(w) {
        AlwaysSomethingToDo(w);
      } else if w.synced == |w.h| {
        ViewIsExact(w.h, w.joined, w.synced, w.view);
      }
    }
  }

  lemma WorkIsLeft(w: World)
    requires Inv(w)
    ensures 0 <= Work(w)
  {}

  /** Where a frame was lost behind one that waits, giving that backfill up makes the state one of those. */
  lemma GivingUpIsSafe(w: World)
    requires Inv(w) && w.link.Online? && w.task.Backfill?
    ensures
      var idle := Next(w, FailBackfill);
      && Safe(w, FailBackfill) && Inv(idle) && Gapless(idle)
      && Enabled(idle, StartBackfill) && Safe(idle, StartBackfill)
      && Inv(Next(idle, StartBackfill)) && Gapless(Next(idle, StartBackfill))
  {
    hide GoodView, RecordsOk, UniqueSurvivors;
    StepKeeps(w, FailBackfill);
    StepKeeps(Next(w, FailBackfill), StartBackfill);
  }
}
