/**
 What a device reads when deleted rows have left the table: the same messages as
 a device that saw every row, and the same texts exactly where the last edit that
 is still in the table says what the last edit said.
 */
module Compaction {
  import opened Wrappers
  import opened History
  import opened Replication
  import opened Screen
  import opened Convergence

  /** The last row up to n that rewrote message s and is there to be read after row `synced`, or 0. */
  ghost function LastKept(h: seq<Entry>, joined: nat, synced: nat, n: nat, s: nat): (k: nat)
    requires n <= |h|
    ensures k <= LastEdit(h, joined, n, s)
    ensures k != 0 ==> s < k
    decreases n
  {
    if n <= joined then 0
    else if Hit(Fold(h, joined, n - 1), n, h[n - 1]) == Some(s) && (n <= synced || !Deleted(h, n, |h|)) then n
    else LastKept(h, joined, synced, n - 1, s)
  }

  /** Message s as row k left it, or as it was posted if k is 0. */
  predicate Carries(h: seq<Entry>, m: Stored, s: nat, k: nat)
    requires 0 < s <= |h| && k <= |h|
  {
    && IsPost(h[s - 1])
    && (k == 0 ==> m == Posted(h[s - 1]))
    && (k != 0 ==> IsEdit(h[k - 1]) && h[k - 1].payload.TextEdit? && h[s - 1].payload.Text?
                   && m == Rewritten(Posted(h[s - 1]), h[k - 1].payload.newBody))
  }

  /** A surviving message's last edit, if it was edited, says what its last edit in the table says. */
  ghost predicate SameText(h: seq<Entry>, joined: nat, synced: nat, s: nat) {
    var last, kept := LastEdit(h, joined, |h|, s), LastKept(h, joined, synced, |h|, s);
    last == 0 || (kept != 0 && Body(h, kept) == Body(h, last))
  }

  function Body(h: seq<Entry>, k: nat): Option<string>
    requires 0 < k <= |h|
  {
    var e := h[k - 1];
    if e.Message? && e.payload.TextEdit? then Some(e.payload.newBody) else None
  }

  /** What the device has read of message s after reading the rows up to n. */
  ghost predicate KeptAt(h: seq<Entry>, joined: nat, synced: nat, n: nat, x: Store, s: nat)
    requires n <= |h|
  {
    s in x && s in Fold(h, joined, n) && 0 < s <= |h| ==> Carries(h, x[s], s, LastKept(h, joined, synced, n, s))
  }

  lemma {:induction false} KeptFromStart(h: seq<Entry>, joined: nat, synced: nat, n: nat, s: nat)
    requires n <= synced && n <= |h|
    ensures LastKept(h, joined, synced, n, s) == LastEdit(h, joined, n, s)
    decreases n
  {
    if joined < n { KeptFromStart(h, joined, synced, n - 1, s); }
  }

  lemma {:induction false} KeptAcrossGap(h: seq<Entry>, joined: nat, synced: nat, m: nat, n: nat, s: nat)
    requires synced <= m <= n < |h| && Skipped(h, m, n + 1, |h|)
    ensures LastKept(h, joined, synced, n, s) == LastKept(h, joined, synced, m, s)
    decreases n
  {
    hide Fold;
    if m < n {
      assert Deleted(h, n, |h|);
      KeptAcrossGap(h, joined, synced, m, n - 1, s);
    }
  }

  ghost predicate AllKept(h: seq<Entry>, joined: nat, synced: nat, n: nat, x: Store)
    requires n <= |h|
  {
    forall s: nat :: KeptAt(h, joined, synced, n, x, s)
  }

  /** Reading the next surviving row. */
  lemma KeptStep(h: seq<Entry>, joined: nat, synced: nat, n: nat, r: nat, x: Store)
    requires HistoryOk(h) && joined <= synced <= n < r <= |h| && Skipped(h, n, r, |h|) && !Deleted(h, r, |h|)
    requires Good(h, joined, n, n + 1, |h|, x) && AllKept(h, joined, synced, n, x)
    ensures AllKept(h, joined, synced, r, Step(x, r, h[r - 1]))
  {
    var y := Step(x, r, h[r - 1]);
    forall s: nat
      ensures KeptAt(h, joined, synced, r, y, s)
    {
      if s == r {
        KeptNew(h, joined, synced, r, x);
      } else if s in y && s in Fold(h, joined, r) && 0 < s <= |h| {
        StepUpdates(x, r, h[r - 1], s);
        hide Step, HistoryOk, Skipped, Good, Fold, Hit;
        KeptOld(h, joined, synced, n, r, x, y, s);
      }
    }
  }

  lemma KeptNew(h: seq<Entry>, joined: nat, synced: nat, r: nat, x: Store)
    requires RecordsOk(h) && 0 < r <= |h|
    ensures KeptAt(h, joined, synced, r, Step(x, r, h[r - 1]), r)
  {
    FoldHolds(h, joined, r, r);
    hide Fold, LastEdit, LastKept, RecordsOk, Deleted;
  }

  /** The row lands on the device's message exactly when it lands in the history. */
  lemma ReadLands(h: seq<Entry>, joined: nat, n: nat, r: nat, x: Store, s: nat)
    requires HistoryOk(h) && joined <= n < r <= |h| && Skipped(h, n, r, |h|) && Holds(h, joined, n, n + 1, |h|, x)
    requires s in x && s != r && s in Fold(h, joined, r)
    ensures 0 < s <= n && s in Fold(h, joined, n) && IsPost(h[s - 1]) && Identity(x[s], h[s - 1])
    ensures Hit(Fold(h, joined, r - 1), r, h[r - 1]) == Some(s) <==> Hit(x, r, h[r - 1]) == Some(s)
    ensures Hit(x, r, h[r - 1]) == Some(s) ==> x[s].payload.Text?
  {
    var end := n + 1;
    assert HoldsAt(h, joined, n, end, |h|, x, s);
    AdvancedEdit(h, joined, n, r, end, |h|, x, s);
    GapKeeps(h, joined, n, r - 1, |h|, s);
    hide Fold, RecordsOk, UniqueSurvivors, Holds, Skipped, Deleted, Hit, LastEdit, Identity, Reused;
  }

  lemma KeptOld(h: seq<Entry>, joined: nat, synced: nat, n: nat, r: nat, x: Store, y: Store, s: nat)
    requires HistoryOk(h) && joined <= synced <= n < r <= |h| && Skipped(h, n, r, |h|) && !Deleted(h, r, |h|)
    requires Good(h, joined, n, n + 1, |h|, x) && AllKept(h, joined, synced, n, x)
    requires Updated(x, x, y, r, h[r - 1], s) && 0 < s <= |h| && s != r && s in y && s in Fold(h, joined, r)
    ensures KeptAt(h, joined, synced, r, y, s)
  {
    hide Fold, RecordsOk, UniqueSurvivors, Good, Holds, Skipped, Deleted, Hit, LastKept, Identity, Carries;
    GoodHolds(h, joined, n, n + 1, |h|, x);
    ReadLands(h, joined, n, r, x, s);
    assert KeptAt(h, joined, synced, n, x, s);
    KeptAcrossGap(h, joined, synced, n, r - 1, s);
    KeptEdit(h, joined, synced, n, r, x, s);
  }

  lemma KeptEdit(h: seq<Entry>, joined: nat, synced: nat, n: nat, r: nat, x: Store, s: nat)
    requires n < r <= |h| && joined < r && !Deleted(h, r, |h|) && 0 < s < r
    requires s in x && Carries(h, x[s], s, LastKept(h, joined, synced, n, s))
    requires LastKept(h, joined, synced, r - 1, s) == LastKept(h, joined, synced, n, s)
    ensures
      var k := LastKept(h, joined, synced, r, s);
      if Hit(Fold(h, joined, r - 1), r, h[r - 1]) == Some(s)
      then k == r && (Identity(x[s], h[s - 1]) && x[s].payload.Text? ==>
                        Carries(h, Rewritten(x[s], h[r - 1].payload.newBody), s, k))
      else Carries(h, x[s], s, k)
  {
    hide Fold, Deleted;
  }

  /** Reading all rows that are left. */
  lemma {:induction false} KeptRows(h: seq<Entry>, joined: nat, synced: nat, n: nat, v: View)
    requires HistoryOk(h) && joined <= synced <= n <= |h| && ValidRows(h, RowsFrom(h, n + 1))
    requires GoodView(h, joined, n, n + 1, |h|, v) && AllKept(h, joined, synced, n, v.store)
    ensures AllKept(h, joined, synced, |h|, ApplyRows(h, v, RowsFrom(h, n + 1)).store)
    decreases |h| - n
  {
    hide RecordsOk, UniqueSurvivors, GoodView, Skipped, AllKept, RowsFrom, Good, Step, Deleted;
    if n < |h| {
      RowsReachTheEnd(h, n + 1);
      RowsHead(h, n + 1);
      RowsSurvive(h, n + 1);
      var r := RowsFrom(h, n + 1)[0];
      var next := StepView(v, r, h[r - 1]);
      AdvanceKeepsView(h, joined, n, r, n + 1, |h|, v);
      GoodStore(h, joined, n, v);
      SurvivorIsKept(h, n, r);
      KeptStep(h, joined, synced, n, r, v.store);
      KeptRows(h, joined, synced, r, next);
    } else {
      NoRows(h);
    }
  }

  lemma SurvivorIsKept(h: seq<Entry>, n: nat, r: nat)
    requires RowsFrom(h, n + 1) != [] && r == RowsFrom(h, n + 1)[0]
    ensures !Deleted(h, r, |h|)
  {
    RowsSurvive(h, n + 1);
  }

  lemma NoRows(h: seq<Entry>)
    ensures RowsFrom(h, |h| + 1) == []
  {}

  lemma GoodStore(h: seq<Entry>, joined: nat, n: nat, v: View)
    requires n <= |h| && GoodView(h, joined, n, n + 1, |h|, v)
    ensures Good(h, joined, n, n + 1, |h|, v.store)
  {
    hide Good, ShownGood;
  }

  lemma CarriesDecides(h: seq<Entry>, a: Stored, b: Stored, s: nat, kept: nat, last: nat)
    requires 0 < s <= |h| && kept <= last <= |h| && Carries(h, a, s, kept) && Carries(h, b, s, last)
    ensures a == b <==> last == 0 || (kept != 0 && Body(h, kept) == Body(h, last))
  {}

  lemma SurvivorReads(h: seq<Entry>, joined: nat, synced: nat, read: Store, s: nat)
    requires HistoryOk(h) && AllKept(h, joined, synced, |h|, read) && s in read && s in Fold(h, joined, |h|)
    ensures read[s] == Fold(h, joined, |h|)[s] <==> SameText(h, joined, synced, s)
  {
    assert KeptAt(h, joined, synced, |h|, read, s);
    LastEditDecides(h, joined, |h|, s);
    hide Fold, LastEdit, LastKept, RecordsOk, UniqueSurvivors, AllKept;
    CarriesDecides(h, read[s], Fold(h, joined, |h|)[s], s, LastKept(h, joined, synced, |h|, s),
                   LastEdit(h, joined, |h|, s));
  }

  lemma StartsCarrying(h: seq<Entry>, joined: nat, synced: nat, s: nat)
    requires RecordsOk(h) && synced <= |h|
    ensures KeptAt(h, joined, synced, synced, Fold(h, joined, synced), s)
  {
    KeptFromStart(h, joined, synced, synced, s);
    if s in Fold(h, joined, synced) { LastEditDecides(h, joined, synced, s); }
    hide Fold, LastEdit, LastKept, RecordsOk;
  }

  lemma ReadsKept(h: seq<Entry>, joined: nat, synced: nat)
    requires HistoryOk(h) && joined <= synced <= |h| && ValidRows(h, RowsFrom(h, synced + 1))
    ensures AllKept(h, joined, synced, |h|,
                    ApplyRows(h, View(Fold(h, joined, synced), None), RowsFrom(h, synced + 1)).store)
  {
    ExactIsGood(h, joined, synced, synced + 1, |h|);
    forall s: nat
      ensures KeptAt(h, joined, synced, synced, Fold(h, joined, synced), s)
    {
      StartsCarrying(h, joined, synced, s);
    }
    hide KeptAt, Good, RecordsOk, UniqueSurvivors, RowsFrom, ApplyRows, Fold;
    KeptRows(h, joined, synced, synced, View(Fold(h, joined, synced), None));
  }

  lemma ReadsAgree(h: seq<Entry>, joined: nat, synced: nat)
    requires HistoryOk(h) && joined <= synced <= |h|
    ensures
      var rows := RowsFrom(h, synced + 1);
      && ValidRows(h, rows)
      && Agrees(h, joined, |h|, ApplyRows(h, View(Fold(h, joined, synced), None), rows).store)
  {
    hide RowsFrom, RecordsOk, UniqueSurvivors, Good, Agrees, ApplyRows, Fold;
    var rows, view := RowsFrom(h, synced + 1), View(Fold(h, joined, synced), None);
    ExactIsGood(h, joined, synced, synced + 1, |h|);
    RowsSurvive(h, synced + 1);
    ApplyRowsKeeps(h, joined, synced, synced + 1, view, rows);
    if synced < |h| { RowsReachTheEnd(h, synced + 1); } else { NoRows(h); }
    ViewIsExact(h, joined, |h|, ApplyRows(h, view, rows));
  }

  /**
   Compaction preserves meaning. A device at any position that reads only the rows still
   in the table has the messages of one that saw every row. It has the same store exactly
   when every surviving message that was edited has an edit left to read, or read before,
   and the last of those says what the last edit said.
   */
  lemma CompactionPreservesMeaning(h: seq<Entry>, joined: nat, synced: nat)
    requires HistoryOk(h) && joined <= synced <= |h|
    ensures
      var rows, full := RowsFrom(h, synced + 1), Fold(h, joined, |h|);
      && ValidRows(h, rows)
      && var read := ApplyRows(h, View(Fold(h, joined, synced), None), rows).store;
      && read.Keys == full.Keys
      && (forall s: nat :: s in full ==> (read[s] == full[s] <==> SameText(h, joined, synced, s)))
      && (read == full <==> forall s: nat :: s in full ==> SameText(h, joined, synced, s))
  {
    var rows, view, full := RowsFrom(h, synced + 1), View(Fold(h, joined, synced), None), Fold(h, joined, |h|);
    RowsSurvive(h, synced + 1);
    var read := ApplyRows(h, view, rows).store;
    ReadsAgree(h, joined, synced);
    ReadsKept(h, joined, synced);
    hide RowsFrom, ApplyRows, LastKept, RecordsOk, UniqueSurvivors, Fold, LastEdit, Body;
    assert read.Keys == full.Keys;
    forall s: nat | s in full
      ensures read[s] == full[s] <==> SameText(h, joined, synced, s)
    {
      SurvivorReads(h, joined, synced, read, s);
    }
  }

  // --- The text of a message, by the rows alone ---------------------------------------------------

  /** An edit of a stored text lands on it. */
  lemma EditLands(h: seq<Entry>, joined: nat, k: nat, s: nat)
    requires HistoryOk(h) && joined < k <= |h| && 0 < s < k && s in Fold(h, joined, k - 1) && h[s - 1].Message?
    requires h[s - 1].payload.Text? && h[k - 1].Message? && h[k - 1].payload.TextEdit?
    requires h[k - 1].sender == h[s - 1].sender && h[k - 1].payload.ref == h[s - 1].clientId
    ensures Hit(Fold(h, joined, k - 1), k, h[k - 1]) == Some(s)
  {
    var e, fold := h[k - 1], Fold(h, joined, k - 1);
    FoldHolds(h, joined, k - 1, s);
    assert Matches(fold, s, e.sender, e.payload.ref);
    var t := Original(fold, e.sender, e.payload.ref).value;
    FoldHolds(h, joined, k - 1, t);
    OneCandidate(h, k - 1, t, s);
  }

  /** Row k is an edit of message s by its author, wherever it lands. */
  predicate Edits(h: seq<Entry>, k: nat, s: nat)
    requires 0 < s <= |h|
  {
    && 0 < k <= |h| && h[k - 1].Message? && h[k - 1].payload.TextEdit? && h[s - 1].Message?
    && h[k - 1].sender == h[s - 1].sender && h[k - 1].payload.ref == h[s - 1].clientId
  }

  /** The last such row after message s up to n, or 0. */
  function LastOwnEdit(h: seq<Entry>, s: nat, n: nat): (k: nat)
    requires 0 < s <= n <= |h|
    ensures k != 0 ==> s < k <= n && Edits(h, k, s)
    ensures forall j :: s < j <= n && Edits(h, j, s) ==> j <= k
    decreases n
  {
    if n <= s then 0 else if Edits(h, n, s) then n else LastOwnEdit(h, s, n - 1)
  }

  /** A row that rewrites a message is its author's edit of it. */
  lemma OwnEditHits(h: seq<Entry>, joined: nat, k: nat, s: nat)
    requires HistoryOk(h) && joined < k <= |h| && 0 < s < k && s in Fold(h, joined, k - 1) && h[s - 1].Message?
    requires h[s - 1].payload.Text?
    ensures Hit(Fold(h, joined, k - 1), k, h[k - 1]) == Some(s) <==> Edits(h, k, s)
  {
    FoldHolds(h, joined, k - 1, s);
    if Edits(h, k, s) { EditLands(h, joined, k, s); }
    hide Fold, HistoryOk;
  }

  /**
   What a text says is a matter of the rows alone: its author's last edit of it, or what was
   posted if there is none; and it is marked as edited exactly when there is one.
   */
  lemma {:induction false} TextSaysTheLastEdit(h: seq<Entry>, joined: nat, n: nat, s: nat)
    requires HistoryOk(h) && n <= |h| && s in Fold(h, joined, n) && 0 < s <= n && h[s - 1].Message?
    requires h[s - 1].payload.Text?
    ensures
      var m, k := Fold(h, joined, n)[s], LastOwnEdit(h, s, n);
      m == Stored(h[s - 1].sender, h[s - 1].clientId, h[s - 1].serverTs,
                  Text(if k == 0 then h[s - 1].payload.body else h[k - 1].payload.newBody, h[s - 1].payload.reply),
                  k != 0)
    decreases n
  {
    FoldHolds(h, joined, n, s);
    if s < n {
      LastEditStep(h, joined, n, s);
      OwnEditHits(h, joined, n, s);
      hide Fold, LastEdit, Hit, RecordsOk, UniqueSurvivors, Deleted;
      TextSaysTheLastEdit(h, joined, n - 1, s);
    } else {
      LastEditDecides(h, joined, n, s);
      hide Fold, HistoryOk;
    }
  }
}
