/**
 Lost frames that the rows after them make good. A device that loses a connection with frames
 still to come reads on later; what it reads may remove or edit again what the lost frames
 would have put right. This is exactly when it does.
 */
module Mending {
  import opened Wrappers
  import opened History
  import opened Replication
  import opened Screen
  import opened Convergence
  import opened Compaction
  import opened Runs
  import opened Drops

  /** After row n message s is removed, or edited again. */
  ghost predicate Renewed(h: seq<Entry>, joined: nat, n: nat, s: nat) {
    s !in Fold(h, joined, |h|) || LastEdit(h, joined, |h|, s) > n
  }

  /**
   Losing the frames f .. n does message s no lasting harm: it is not a deleted one they would
   have removed again, and it is renewed, or the frames are spare as far as it goes.
   */
  ghost predicate Mends(h: seq<Entry>, joined: nat, f: nat, n: nat, s: nat)
    requires 0 < f <= n + 1 && n <= |h|
  {
    && (s in Fold(h, joined, f - 1) ==> s in Fold(h, joined, n))
    && (Renewed(h, joined, n, s) || (SpareBelow(h, joined, f, n, |h|, s) && SpareBeyond(h, joined, f, n, |h|, s)))
  }

  ghost predicate FramesMend(h: seq<Entry>, joined: nat, f: nat, n: nat)
    requires 0 < f <= n + 1 && n <= |h|
  {
    forall s: nat :: Mends(h, joined, f, n, s)
  }

  /** What the device has after it reads the rest of the log. */
  ghost function ReadsOn(h: seq<Entry>, v: View, n: nat): View {
    RowsSurvive(h, n + 1);
    ApplyRows(h, v, RowsFrom(h, n + 1))
  }

  // --- While it reads ----------------------------------------------------------------------------

  /** The text of message s is right, or as it was after row n, and not edited since. */
  ghost predicate LateAt(h: seq<Entry>, joined: nat, n: nat, m: nat, x0: Store, x: Store, s: nat)
    requires m <= |h|
  {
    || TextAt(h, joined, m, m + 1, |h|, x, s)
    || (s in x && s in x0 && 0 < s <= n && x[s] == x0[s] && LastEdit(h, joined, m, s) <= n)
  }

  lemma LateStep(h: seq<Entry>, joined: nat, n: nat, m: nat, k: nat,
                 local: Store, x0: Store, x: Store, y: Store, s: nat)
    requires HistoryOk(h) && joined <= n <= m < k <= |h| && Skipped(h, m, k, |h|)
    requires Holds(h, joined, m, m + 1, |h|, local) && LateAt(h, joined, n, m, x0, x, s)
    requires Updated(local, x, y, k, h[k - 1], s) && (s in x ==> s in local)
    ensures LateAt(h, joined, n, k, x0, y, s)
  {
    var end := m + 1;
    hide Fold, Deleted, RecordsOk, UniqueSurvivors, Holds, Skipped, Reused, Hit, LastEdit, Identity;
    if TextAt(h, joined, m, end, |h|, x, s) {
      hide TextAt;
      AdvanceText(h, joined, m, k, end, |h|, local, x, y, s);
    } else if s in y && s in Fold(h, joined, k) {
      AdvancedEdit(h, joined, m, k, end, |h|, local, s);
      GapKeeps(h, joined, m, k - 1, |h|, s);
    } else {
      hide TextAt;
      NoText(h, joined, k, k + 1, |h|, y, s);
    }
  }

  ghost predicate LateStore(h: seq<Entry>, joined: nat, n: nat, m: nat, x0: Store, x: Store)
    requires m <= |h|
  {
    forall s: nat :: LateAt(h, joined, n, m, x0, x, s)
  }

  ghost predicate LateView(h: seq<Entry>, joined: nat, n: nat, m: nat, v0: View, v: View)
    requires m <= |h|
  {
    && Holds(h, joined, m, m + 1, |h|, v.store) && LateStore(h, joined, n, m, v0.store, v.store)
    && (v.shown.Some? <==> v0.shown.Some?)
    && (v.shown.Some? ==> v.shown.value.Keys == v.store.Keys
                          && LateStore(h, joined, n, m, v0.shown.value, v.shown.value))
  }

  lemma HoldsOn(h: seq<Entry>, joined: nat, m: nat, k: nat, local: Store)
    requires RecordsOk(h) && joined <= m < k <= |h| && Skipped(h, m, k, |h|)
    requires Holds(h, joined, m, m + 1, |h|, local)
    ensures Holds(h, joined, k, k + 1, |h|, Step(local, k, h[k - 1]))
  {
    var end, last, after := m + 1, k + 1, Step(local, k, h[k - 1]);
    forall s: nat
      ensures HoldsAt(h, joined, k, last, |h|, after, s)
    {
      assert HoldsAt(h, joined, m, end, |h|, local, s);
      AdvanceHoldsAt(h, joined, m, k, end, |h|, local, s);
    }
    hide HoldsAt, RecordsOk, Skipped, Step;
  }

  lemma LateRow(h: seq<Entry>, joined: nat, n: nat, m: nat, k: nat, v0: View, v: View)
    requires HistoryOk(h) && joined <= n <= m < k <= |h| && Skipped(h, m, k, |h|)
    requires LateView(h, joined, n, m, v0, v)
    ensures LateView(h, joined, n, k, v0, StepView(v, k, h[k - 1]))
  {
    hide RecordsOk, UniqueSurvivors, Skipped, Holds, LateAt, Step, StepShown, Updated;
    var e := h[k - 1];
    HoldsOn(h, joined, m, k, v.store);
    forall s: nat
      ensures LateAt(h, joined, n, k, v0.store, Step(v.store, k, e), s)
    {
      StepUpdates(v.store, k, e, s);
      LateStep(h, joined, n, m, k, v.store, v0.store, v.store, Step(v.store, k, e), s);
    }
    if v.shown.Some? {
      StepShownKeys(v.shown.value, v.store, k, e);
      var list := StepShown(v.shown.value, v.store, k, e);
      forall s: nat
        ensures LateAt(h, joined, n, k, v0.shown.value, list, s)
      {
        StepShownUpdates(v.shown.value, v.store, k, e, s);
        LateStep(h, joined, n, m, k, v.store, v0.shown.value, v.shown.value, list, s);
      }
    }
  }

  lemma {:induction false} LateRows(h: seq<Entry>, joined: nat, n: nat, m: nat, v0: View, v: View, rows: seq<nat>)
    requires HistoryOk(h) && joined <= n <= m <= |h| && LateView(h, joined, n, m, v0, v)
    requires rows == RowsFrom(h, m + 1) && ValidRows(h, rows)
    ensures LateView(h, joined, n, |h|, v0, ApplyRows(h, v, rows))
    decreases |rows|
  {
    hide RecordsOk, UniqueSurvivors, Skipped, LateView, RowsFrom, StepView;
    if rows == [] {
      assert m == |h| by { if m < |h| { RowsReachTheEnd(h, m + 1); } }
    } else {
      RowsHead(h, m + 1);
      LateRow(h, joined, n, m, rows[0], v0, v);
      LateRows(h, joined, n, rows[0], v0, StepView(v, rows[0], h[rows[0] - 1]), rows[1..]);
    }
  }

  // --- Where it starts and ends ---------------------------------------------------------------------

  /** With no deleted message to be removed again, nothing is pending as to which messages there are. */
  lemma NothingIsBack(h: seq<Entry>, joined: nat, f: nat, n: nat, x: Store)
    requires RecordsOk(h) && n <= |h| && 0 < f <= n + 1 && Holds(h, joined, n, f, |h|, x)
    requires forall s: nat :: s in Fold(h, joined, f - 1) ==> s in Fold(h, joined, n)
    ensures Holds(h, joined, n, n + 1, |h|, x)
  {
    var end := n + 1;
    forall s: nat
      ensures HoldsAt(h, joined, n, end, |h|, x, s)
    {
      assert HoldsAt(h, joined, n, f, |h|, x, s);
      FoldHolds(h, joined, f - 1, s);
      FoldHolds(h, joined, n, s);
      hide Fold, RecordsOk, Identity, Deleted;
    }
  }

  lemma LateStarts(h: seq<Entry>, joined: nat, f: nat, n: nat, v: View)
    requires RecordsOk(h) && n <= |h| && 0 < f <= n + 1 && GoodView(h, joined, n, f, |h|, v)
    requires forall s: nat :: s in Fold(h, joined, f - 1) ==> s in Fold(h, joined, n)
    ensures LateView(h, joined, n, n, v, v)
  {
    GoodHolds(h, joined, n, f, |h|, v.store);
    NothingIsBack(h, joined, f, n, v.store);
    forall s: nat
      ensures LateAt(h, joined, n, n, v.store, v.store, s)
    {
      assert HoldsAt(h, joined, n, f, |h|, v.store, s);
      EditsAreRead(h, joined, n, s);
    }
    if v.shown.Some? {
      forall s: nat
        ensures LateAt(h, joined, n, n, v.shown.value, v.shown.value, s)
      {
        assert HoldsAt(h, joined, n, f, |h|, v.store, s);
        EditsAreRead(h, joined, n, s);
      }
    }
  }

  lemma EditsAreRead(h: seq<Entry>, joined: nat, n: nat, s: nat)
    requires n <= |h|
    ensures LastEdit(h, joined, n, s) <= n
  {}

  /** A message that is edited no more after row n stays as it is. */
  lemma {:induction false} EditedNoMore(h: seq<Entry>, joined: nat, n: nat, m: nat, s: nat)
    requires RecordsOk(h) && joined <= n <= m <= |h| && 0 < s <= n && s in Fold(h, joined, m)
    requires LastEdit(h, joined, m, s) <= n
    ensures s in Fold(h, joined, n) && Fold(h, joined, m)[s] == Fold(h, joined, n)[s]
    ensures LastEdit(h, joined, m, s) == LastEdit(h, joined, n, s)
    decreases m
  {
    if n < m {
      LastEditStep(h, joined, m, s);
      hide Fold, LastEdit, RecordsOk, Hit;
      EditedNoMore(h, joined, n, m - 1, s);
    }
  }

  /** In the end a text is right. */
  lemma LateEnds(h: seq<Entry>, joined: nat, f: nat, n: nat, x0: Store, x: Store, s: nat)
    requires RecordsOk(h) && joined <= n <= |h| && 0 < f <= n + 1 && Mends(h, joined, f, n, s)
    requires TextAt(h, joined, n, f, |h|, x0, s) && LateAt(h, joined, n, |h|, x0, x, s)
    requires s in x && s in Fold(h, joined, |h|) && s <= |h|
    ensures x[s] == Fold(h, joined, |h|)[s] || Deleted(h, LastEdit(h, joined, |h|, s), |h|)
  {
    hide Fold, LastEdit, Deleted, RecordsOk, Reused, SpareBelow, SpareBeyond;
    if !TextAt(h, joined, |h|, |h| + 1, |h|, x, s) {
      EditedNoMore(h, joined, n, |h|, s);
      if !Renewed(h, joined, n, s) {
        hide TextAt;
        SpareText(h, joined, n, f, |h|, x0, s);
        TextSays(h, joined, n, |h|, x0, s);
      }
    } else {
      hide LateAt;
    }
  }

  /** With nothing pending. */
  lemma TextSays(h: seq<Entry>, joined: nat, n: nat, hz: nat, x: Store, s: nat)
    requires n <= hz <= |h| && TextAt(h, joined, n, n + 1, hz, x, s) && s in x && s in Fold(h, joined, n) && s <= |h|
    ensures x[s] == Fold(h, joined, n)[s] || Deleted(h, LastEdit(h, joined, n, s), hz)
  {
    hide Fold, LastEdit, Deleted, Reused;
  }

  lemma HeldAreFolded(h: seq<Entry>, joined: nat, x: Store)
    requires RecordsOk(h) && Holds(h, joined, |h|, |h| + 1, |h|, x)
    ensures x.Keys == Fold(h, joined, |h|).Keys && forall s :: s in x ==> s <= |h|
  {
    var n, end := |h|, |h| + 1;
    forall s: nat
      ensures s in x <==> s in Fold(h, joined, n)
      ensures s in x ==> s <= n
    {
      assert HoldsAt(h, joined, n, end, n, x, s);
      FoldHolds(h, joined, n, s);
    }
    hide Fold;
  }

  lemma StoreEnds(h: seq<Entry>, joined: nat, f: nat, n: nat, x0: Store, x: Store)
    requires RecordsOk(h) && joined <= n <= |h| && 0 < f <= n + 1 && FramesMend(h, joined, f, n)
    requires forall s: nat :: TextAt(h, joined, n, f, |h|, x0, s)
    requires LateStore(h, joined, n, |h|, x0, x)
    requires x.Keys == Fold(h, joined, |h|).Keys && forall s :: s in x ==> s <= |h|
    ensures Agrees(h, joined, |h|, x)
  {
    hide Fold, LastEdit, Deleted, RecordsOk, TextAt, LateAt, Mends;
    forall s: nat | s in x
      ensures x[s] == Fold(h, joined, |h|)[s] || Deleted(h, LastEdit(h, joined, |h|, s), |h|)
    {
      assert Mends(h, joined, f, n, s);
      assert LateAt(h, joined, n, |h|, x0, x, s);
      LateEnds(h, joined, f, n, x0, x, s);
    }
  }

  /** Whatever the frames f .. n would have put right, the rest of the log does. */
  lemma MendedAgrees(h: seq<Entry>, joined: nat, f: nat, n: nat, v: View)
    requires HistoryOk(h) && joined <= n <= |h| && 0 < f <= n + 1 && FramesMend(h, joined, f, n)
    requires GoodView(h, joined, n, f, |h|, v)
    ensures ViewAgrees(h, joined, |h|, ReadsOn(h, v, n))
  {
    hide Fold, LastEdit, Deleted, RecordsOk, UniqueSurvivors, TextAt, HoldsAt, Holds, LateStore, Agrees, RowsFrom;
    hide ApplyRows;
    var end := ReadsOn(h, v, n);
    assert forall s: nat :: Mends(h, joined, f, n, s) ==> (s in Fold(h, joined, f - 1) ==> s in Fold(h, joined, n));
    LateStarts(h, joined, f, n, v);
    RowsSurvive(h, n + 1);
    LateRows(h, joined, n, n, v, v, RowsFrom(h, n + 1));
    HeldAreFolded(h, joined, end.store);
    forall s: nat
      ensures TextAt(h, joined, n, f, |h|, v.store, s)
    {
      assert GoodAt(h, joined, n, f, |h|, v.store, s);
    }
    hide FramesMend;
    StoreEnds(h, joined, f, n, v.store, end.store);
    if v.shown.Some? { StoreEnds(h, joined, f, n, v.shown.value, end.shown.value); }
  }

  // --- Where nothing mends it -------------------------------------------------------------------------

  lemma {:induction false} KeyStays(h: seq<Entry>, v: View, s: nat, rows: seq<nat>)
    requires ValidRows(h, rows) && s in v.store && forall i :: 0 <= i < |rows| ==> h[rows[i] - 1] != Deletion(s)
    ensures s in ApplyRows(h, v, rows).store
    decreases |rows|
  {
    if rows != [] {
      var r := rows[0];
      assert s in Step(v.store, r, h[r - 1]);
      hide Hit;
      KeyStays(h, StepView(v, r, h[r - 1]), s, rows[1..]);
    }
  }

  /** Before a message is last edited it is not edited later. */
  lemma {:induction false} NotEditedSince(h: seq<Entry>, joined: nat, n: nat, k: nat, m: nat, s: nat)
    requires RecordsOk(h) && joined <= n <= k <= m <= |h| && 0 < s <= n && s in Fold(h, joined, m)
    requires LastEdit(h, joined, m, s) <= n
    ensures s in Fold(h, joined, k) && LastEdit(h, joined, k, s) <= n
    decreases m
  {
    if k < m {
      LastEditStep(h, joined, m, s);
      hide Fold, LastEdit, RecordsOk, Hit;
      NotEditedSince(h, joined, n, k, m - 1, s);
    }
  }

  lemma NotTouchedAt(h: seq<Entry>, joined: nat, n: nat, k: nat, m: Stored, s: nat)
    requires HistoryOk(h) && joined <= n <= k < |h| && 0 < s <= n && s in Fold(h, joined, k)
    requires LastEdit(h, joined, k + 1, s) <= n && h[s - 1].Message? && h[s - 1].payload.Text?
    requires m.sender == h[s - 1].sender && m.clientId == h[s - 1].clientId && h[k] != Deletion(s)
    ensures !Touches(m, s, h[k])
  {
    hide Fold, RecordsOk, UniqueSurvivors, Hit;
    if Touches(m, s, h[k]) {
      EditLands(h, joined, k + 1, s);
    }
  }

  lemma NotRemovedAtAll(h: seq<Entry>, joined: nat, s: nat)
    requires RecordsOk(h) && s in Fold(h, joined, |h|)
    ensures NotRemoved(h, s, 0)
  {
    FoldHolds(h, joined, |h|, s);
    hide Fold, RecordsOk;
  }

  /** A text that is not edited after row n is not touched after it. */
  lemma NotTouched(h: seq<Entry>, joined: nat, n: nat, m: Stored, s: nat)
    requires HistoryOk(h) && joined <= n <= |h| && 0 < s <= n && s in Fold(h, joined, |h|)
    requires LastEdit(h, joined, |h|, s) <= n && h[s - 1].Message? && h[s - 1].payload.Text?
    requires m.sender == h[s - 1].sender && m.clientId == h[s - 1].clientId
    ensures Untouched(h, n, m, s)
  {
    hide Fold, LastEdit, RecordsOk, UniqueSurvivors, Touches;
    NotRemovedAtAll(h, joined, s);
    forall k | n <= k < |h|
      ensures !Touches(m, s, h[k])
    {
      NotEditedSince(h, joined, n, k, |h|, s);
      NotEditedSince(h, joined, n, k + 1, |h|, s);
      NotTouchedAt(h, joined, n, k, m, s);
    }
  }

  /** A wrong text stays wrong. */
  lemma WrongStays(h: seq<Entry>, joined: nat, n: nat, v: View, s: nat)
    requires HistoryOk(h) && joined <= n <= |h| && s in v.store && !Renewed(h, joined, n, s) && 0 < s <= n
    requires h[s - 1].Message? && h[s - 1].payload.Text?
    requires v.store[s].sender == h[s - 1].sender && v.store[s].clientId == h[s - 1].clientId
    requires s in Fold(h, joined, n) && v.store[s] != Fold(h, joined, n)[s]
    requires !Deleted(h, LastEdit(h, joined, n, s), |h|)
    ensures !ViewAgrees(h, joined, |h|, ReadsOn(h, v, n))
  {
    hide Fold, LastEdit, Deleted, RecordsOk, UniqueSurvivors, RowsFrom, ApplyRows, Touches, Untouched;
    RowsSurvive(h, n + 1);
    EditedNoMore(h, joined, n, |h|, s);
    NotTouched(h, joined, n, v.store[s], s);
    FrozenRows(h, v, n, v.store[s], s, RowsFrom(h, n + 1));
    var x := ReadsOn(h, v, n).store;
    assert s in x && x[s] == v.store[s];
  }

  /** The first n rows are those of the whole log. */
  lemma PrefixFolds(h: seq<Entry>, joined: nat, n: nat, m: nat, s: nat)
    requires HistoryOk(h) && m <= n <= |h|
    ensures HistoryOk(h[..n]) && Fold(h[..n], joined, m) == Fold(h, joined, m)
    ensures Deleted(h[..n], s, m) <==> Deleted(h, s, m)
  {
    PrefixIsHistory(h, n);
    LongerSame(h[..n], h, joined, m, s);
    hide HistoryOk, Fold, Deleted;
  }

  /** A message that was deleted by row n. */
  lemma DeletedBetween(h: seq<Entry>, joined: nat, f: nat, n: nat, s: nat)
    requires RecordsOk(h) && 0 < f <= n + 1 && n <= |h|
    requires s in Fold(h, joined, f - 1) && s !in Fold(h, joined, n)
    ensures s < f <= n && NotRemoved(h, s, n) && s !in Fold(h, joined, |h|)
  {
    FoldHolds(h, joined, f - 1, s);
    FoldHolds(h, joined, n, s);
    FoldHolds(h, joined, |h|, s);
    DeletedOnce(h, s, n);
    DeletedLater(h, s, n, |h|);
    hide Fold, RecordsOk, Deleted, Identity;
  }

  lemma StaysAndDisagrees(h: seq<Entry>, joined: nat, n: nat, v: View, s: nat)
    requires n <= |h| && s in v.store && NotRemoved(h, s, n) && s !in Fold(h, joined, |h|)
    ensures !ViewAgrees(h, joined, |h|, ReadsOn(h, v, n))
  {
    RowsSurvive(h, n + 1);
    hide Fold, RowsFrom, ApplyRows, Deleted;
    KeyStays(h, v, s, RowsFrom(h, n + 1));
    assert s in ReadsOn(h, v, n).store;
  }

  /** A deleted message that is back stays. */
  lemma BackForGood(h: seq<Entry>, joined: nat, f: nat, n: nat, s: nat) returns (w: World)
    requires HistoryOk(h) && joined < f <= n + 1 && n <= |h|
    requires s in Fold(h, joined, f - 1) && s !in Fold(h, joined, n)
    ensures Reachable(w, h[..n], joined) && Lags(w, h[..n], joined, f)
    ensures !ViewAgrees(h, joined, |h|, ReadsOn(h, w.view, n))
  {
    hide Fold, RecordsOk, UniqueSurvivors, Deleted, ReadsOn, ViewAgrees, Reaches, Initial, Inv, NotRemoved;
    var g := h[..n];
    DeletedBetween(h, joined, f, n, s);
    PrefixFolds(h, joined, n, f - 1, s);
    w := LagsAfterReplay(g, joined, f);
    StaysAndDisagrees(h, joined, n, w.view, s);
    assert Start(g, joined).joined == joined;
  }

  /** A text that is put back stays. */
  lemma PutBackForGood(h: seq<Entry>, joined: nat, f: nat, n: nat, s: nat) returns (w: World)
    requires HistoryOk(h) && joined < f <= n + 1 && n <= |h|
    requires !Renewed(h, joined, n, s) && !SpareBelow(h, joined, f, n, |h|, s)
    ensures Reachable(w, h[..n], joined) && Lags(w, h[..n], joined, f)
    ensures !ViewAgrees(h, joined, |h|, ReadsOn(h, w.view, n))
  {
    var g := h[..n];
    FoldHolds(h, joined, f - 1, s);
    FoldedBefore(h, joined, n, |h|, s);
    FoldHolds(h, joined, n, s);
    assert f <= n && h[s - 1].payload.Text?;
    PrefixFolds(h, joined, n, f - 1, s);
    hide Fold, RecordsOk, UniqueSurvivors, Deleted, RowsFrom, ApplyRows, Reaches, Initial, Inv, LastEdit, Renewed;
    w := LagsAfterReplay(g, joined, f);
    assert w.view.store[s] == Fold(h, joined, f - 1)[s];
    WrongStays(h, joined, n, w.view, s);
    assert Start(g, joined).joined == joined;
  }

  lemma BeyondSays(h: seq<Entry>, joined: nat, f: nat, n: nat, s: nat) returns (u: nat)
    requires 0 < f <= n + 1 && n <= |h| && !SpareBeyond(h, joined, f, n, |h|, s)
    ensures f <= s <= |h| && s in Fold(h, joined, n) && Twin(h, u, s) && joined < u < f
    ensures LastEdit(h, joined, n, s) != 0 && !Deleted(h, LastEdit(h, joined, n, s), |h|)
  {
    hide Fold, LastEdit, Deleted, Twin;
    u :| Twin(h, u, s) && joined < u < f;
  }

  lemma TwinBefore(h: seq<Entry>, n: nat, u: nat, s: nat)
    requires s <= n <= |h| && Twin(h, u, s)
    ensures Twin(h[..n], u, s)
  {}

  lemma Astray(h: seq<Entry>, joined: nat, f: nat, n: nat, s: nat) returns (u: nat)
    requires HistoryOk(h) && 0 < f <= n + 1 && n <= |h| && !SpareBeyond(h, joined, f, n, |h|, s)
    ensures joined < u < f <= s <= n && Twin(h[..n], u, s) && s in Fold(h, joined, n) && !Deleted(h[..n], s, n)
    ensures IsPost(h[s - 1]) && h[s - 1].payload.Text? && Fold(h, joined, n)[s].edited
    ensures !Deleted(h, LastEdit(h, joined, n, s), |h|)
  {
    hide SpareBeyond, Fold, LastEdit, Deleted, HistoryOk, RecordsOk, Twin, Identity;
    IsHistory(h);
    u := BeyondSays(h, joined, f, n, s);
    FoldHolds(h, joined, n, s);
    PrefixFolds(h, joined, n, n, s);
    LastEditDecides(h, joined, n, s);
    TwinBefore(h, n, u, s);
  }

  lemma IsHistory(h: seq<Entry>)
    requires HistoryOk(h)
    ensures RecordsOk(h)
  {}

  /** An edit that went astray is not made again. */
  lemma AstrayForGood(h: seq<Entry>, joined: nat, f: nat, n: nat, s: nat) returns (w: World)
    requires HistoryOk(h) && joined < f <= n + 1 && n <= |h|
    requires !Renewed(h, joined, n, s) && !SpareBeyond(h, joined, f, n, |h|, s)
    ensures Reachable(w, h[..n], joined) && Lags(w, h[..n], joined, f)
    ensures !ViewAgrees(h, joined, |h|, ReadsOn(h, w.view, n))
  {
    var g := h[..n];
    hide RecordsOk, UniqueSurvivors, Fold, LastEdit, Deleted, Reaches, Initial, Inv, Twin, Renewed, SpareBeyond;
    hide ReadsOn, ViewAgrees;
    var u := Astray(h, joined, f, n, s);
    PrefixFolds(h, joined, n, n, s);
    w := LagsAfterShadow(g, joined, f, u, s);
    InvIdentity(w, s);
    WrongStays(h, joined, n, w.view, s);
    assert Start(g, joined).joined == joined;
  }

  // --- The exact condition -------------------------------------------------------------------------------

  lemma MendedRuns(h: seq<Entry>, joined: nat, f: nat, n: nat, w: World)
    requires HistoryOk(h) && joined < f <= n + 1 && n <= |h| && FramesMend(h, joined, f, n)
    requires Reachable(w, h[..n], joined) && Lags(w, h[..n], joined, f)
    ensures joined <= n && ViewAgrees(h, joined, |h|, ReadsOn(h, w.view, n))
  {
    var g := h[..n];
    hide RecordsOk, UniqueSurvivors, GoodView, Reaches, Initial, FramesMend, ViewAgrees, ReadsOn;
    var start :| Initial(start) && start.joined == joined && Reaches(start, w);
    InitialInv(start);
    ReachedKeeps(start, w);
    PrefixIsHistory(h, n);
    GrowthKeepsView(g, h, joined, n, f, n, w.view);
    ViewWeakens(h, joined, n, f, f, n, |h|, w.view);
    MendedAgrees(h, joined, f, n, w.view);
  }

  /**
   Frames may be lost before the log has ended, exactly when they mend. A device has read n rows,
   the frames f .. n are still to come, and the connection is lost. On every such run the device
   agrees with the log once it has read the rest, if and only if losing them does no message
   lasting harm.
   */
  lemma LosingFramesMendsExactly(h: seq<Entry>, joined: nat, f: nat, n: nat)
    requires HistoryOk(h) && joined < f <= n + 1 && n <= |h|
    ensures FramesMend(h, joined, f, n) <==>
            forall w :: Reachable(w, h[..n], joined) && Lags(w, h[..n], joined, f) ==>
              ViewAgrees(h, joined, |h|, ReadsOn(h, w.view, n))
  {
    hide RecordsOk, UniqueSurvivors, Reachable, ViewAgrees, ReadsOn, Fold, SpareBelow, SpareBeyond, Renewed;
    if FramesMend(h, joined, f, n) {
      forall w | Reachable(w, h[..n], joined) && Lags(w, h[..n], joined, f)
        ensures ViewAgrees(h, joined, |h|, ReadsOn(h, w.view, n))
      {
        MendedRuns(h, joined, f, n, w);
      }
    } else {
      var s: nat :| !Mends(h, joined, f, n, s);
      if s in Fold(h, joined, f - 1) && s !in Fold(h, joined, n) {
        var w := BackForGood(h, joined, f, n, s);
      } else if !SpareBeyond(h, joined, f, n, |h|, s) {
        var w := AstrayForGood(h, joined, f, n, s);
      } else {
        var w := PutBackForGood(h, joined, f, n, s);
      }
    }
  }

  /** A message edited twice. */
  function EditedTwice(): seq<Entry> {
    EditedOnce() + [Message("ann", "3", 0, TextEdit("1", "newest"))]
  }

  lemma EditedTwiceFolds()
    ensures HistoryOk(EditedTwice())
    ensures Fold(EditedTwice(), 0, 1) == AsSent() && Fold(EditedTwice(), 0, 2) == AsEdited()
    ensures LastEdit(EditedTwice(), 0, 2, 1) <= 2 && LastEdit(EditedTwice(), 0, 3, 1) == 3
  {
    var h := EditedTwice();
    EditedOnceFolds();
    LongerSame(EditedOnce(), h, 0, 1, 1);
    LongerSame(EditedOnce(), h, 0, 2, 1);
    hide Fold;
    assert Matches(AsEdited(), 1, "ann", "1");
    assert Hit(AsEdited(), 3, h[2]) == Some(1);
    assert LastEdit(h, 0, 3, 1) == 3;
  }

  /** The first of two edits is not spare when the second is still to be stored; that mends it. */
  lemma LaterEditMends()
    ensures HistoryOk(EditedTwice()) && FramesMend(EditedTwice(), 0, 2, 2) && !FramesSpare(EditedTwice(), 0, 2, 2, 2)
  {
    var h := EditedTwice();
    EditedTwiceFolds();
    assert AsSent()[1] != AsEdited()[1];
    hide Fold, LastEdit, HistoryOk;
    assert !Deleted(h, LastEdit(h, 0, 2, 1), 2);
    assert !SpareBelow(h, 0, 2, 2, 2, 1);
    forall s: nat
      ensures Mends(h, 0, 2, 2, s)
    {}
  }
}
