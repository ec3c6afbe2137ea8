/**
 What a device's message store looks like while live frames lag behind what a
 backfill already covered.

 A backfill moves `synced` forward by reading rows that survive in the server's
 table. Live frames carry every row in order, so a frame may arrive for a row
 the backfill already applied. Such a frame is applied again: it puts the
 original text back, or puts back a message that is deleted by now. The frames
 up to `synced` that are still to come undo the damage. `Good` says exactly how
 far the store may be off in the meantime.
 */
module Replication {
  import opened Wrappers
  import opened History

  /**
   Which messages a store holds that covers rows joined+1 .. synced when frames
   p .. synced will still be replayed: those of the history up to p, where frames
   were replayed, and those of the history up to `synced` beyond. `hz` is the length
   the server's log had when it was last read: rows deleted by then may have been
   skipped.
   */
  ghost predicate HoldsAt(h: seq<Entry>, joined: nat, synced: nat, p: nat, hz: nat, local: Store, s: nat)
    requires synced <= hz <= |h| && 0 < p <= synced + 1
  {
    && (s in local ==>
          && joined < s <= synced && IsPost(h[s - 1]) && Identity(local[s], h[s - 1])
          && !Deleted(h, s, if s < p then p - 1 else synced))
    && (joined < s <= synced && IsPost(h[s - 1]) && !Deleted(h, s, hz) ==> s in local)
  }

  /** Message u came before message s and carried its client id. */
  predicate Twin(h: seq<Entry>, u: nat, s: nat)
    requires s <= |h|
  {
    0 < u < s && IsPost(h[u - 1]) && SameClientId(h[u - 1], h[s - 1])
  }

  /** A message below p had the client id of message s before, so it was deleted before s came. */
  ghost predicate Reused(h: seq<Entry>, joined: nat, p: nat, s: nat)
    requires s <= |h|
  {
    exists u: nat :: Twin(h, u, s) && joined < u < p
  }

  /**
   The text of message s in the store or on screen. It is final; or the row of its last
   edit is gone from the table; or it is what the history up to p gives; or its edits are
   all still to come, which for a message beyond p takes a reused client id.
   */
  ghost predicate TextAt(h: seq<Entry>, joined: nat, synced: nat, p: nat, hz: nat, x: Store, s: nat)
    requires synced <= hz <= |h| && 0 < p <= synced + 1
  {
    s in x && s in Fold(h, joined, synced) && s <= |h| ==>
      || x[s] == Fold(h, joined, synced)[s]
      || Deleted(h, LastEdit(h, joined, synced, s), hz)
      || (s < p && s in Fold(h, joined, p - 1) && x[s] == Fold(h, joined, p - 1)[s])
      || (LastEdit(h, joined, synced, s) != 0 && LastEdit(h, joined, p - 1, s) == 0
          && (s < p || Reused(h, joined, p, s)))
  }

  ghost predicate GoodAt(h: seq<Entry>, joined: nat, synced: nat, p: nat, hz: nat, local: Store, s: nat)
    requires synced <= hz <= |h| && 0 < p <= synced + 1
  {
    HoldsAt(h, joined, synced, p, hz, local, s) && TextAt(h, joined, synced, p, hz, local, s)
  }

  ghost predicate Good(h: seq<Entry>, joined: nat, synced: nat, p: nat, hz: nat, local: Store)
    requires synced <= hz <= |h| && 0 < p <= synced + 1
  {
    forall s: nat :: GoodAt(h, joined, synced, p, hz, local, s)
  }

  /** The messages alone, whatever their texts. */
  ghost predicate Holds(h: seq<Entry>, joined: nat, synced: nat, p: nat, hz: nat, local: Store)
    requires synced <= hz <= |h| && 0 < p <= synced + 1
  {
    forall s: nat :: HoldsAt(h, joined, synced, p, hz, local, s)
  }

  lemma GoodHolds(h: seq<Entry>, joined: nat, synced: nat, p: nat, hz: nat, local: Store)
    requires synced <= hz <= |h| && 0 < p <= synced + 1 && Good(h, joined, synced, p, hz, local)
    ensures Holds(h, joined, synced, p, hz, local)
  {
    forall s: nat
      ensures HoldsAt(h, joined, synced, p, hz, local, s)
    {
      assert GoodAt(h, joined, synced, p, hz, local, s);
    }
    hide HoldsAt, TextAt;
  }

  /** The messages of the fold, each with its final text or with its last edit's row deleted. */
  ghost predicate Agrees(h: seq<Entry>, joined: nat, n: nat, x: Store)
    requires n <= |h|
  {
    var f := Fold(h, joined, n);
    x.Keys == f.Keys && forall s: nat :: s in x ==> x[s] == f[s] || Deleted(h, LastEdit(h, joined, n, s), n)
  }

  /** No record removes the row of a surviving message's last edit. */
  ghost predicate LastEditsKept(h: seq<Entry>, joined: nat, n: nat)
    requires n <= |h|
  {
    forall s: nat :: s in Fold(h, joined, n) ==> !Deleted(h, LastEdit(h, joined, n, s), n)
  }

  lemma AgreesExactly(h: seq<Entry>, joined: nat, n: nat, x: Store)
    requires n <= |h| && LastEditsKept(h, joined, n)
    ensures Agrees(h, joined, n, x) <==> x == Fold(h, joined, n)
  {
    hide Fold, LastEdit, Deleted;
  }

  /** Nothing left to replay and nothing skipped: the store agrees with the plain fold. */
  lemma GoodIsExact(h: seq<Entry>, joined: nat, synced: nat, local: Store)
    requires RecordsOk(h) && synced <= |h|
    requires Good(h, joined, synced, synced + 1, synced, local)
    ensures Agrees(h, joined, synced, local)
  {
    hide RecordsOk;
    var f := Fold(h, joined, synced);
    forall s: nat
      ensures s in local <==> s in f
      ensures s in local ==> local[s] == f[s] || Deleted(h, LastEdit(h, joined, synced, s), synced)
    {
      assert GoodAt(h, joined, synced, synced + 1, synced, local, s);
      FoldHolds(h, joined, synced, s);
    }
  }

  /** The plain fold is a good store, whatever is replayed or was skipped. */
  lemma ExactIsGood(h: seq<Entry>, joined: nat, synced: nat, p: nat, hz: nat)
    requires RecordsOk(h) && synced <= hz <= |h| && 0 < p <= synced + 1
    ensures Good(h, joined, synced, p, hz, Fold(h, joined, synced))
  {
    forall s: nat
      ensures GoodAt(h, joined, synced, p, hz, Fold(h, joined, synced), s)
    {
      FoldHolds(h, joined, synced, s);
      hide Fold, LastEdit;
      if Deleted(h, s, p - 1) { DeletedLater(h, s, p - 1, synced); }
      if Deleted(h, s, synced) { DeletedLater(h, s, synced, hz); }
    }
  }

  /** A store with nothing to replay is good for any replay, and after any longer read of the log. */
  lemma GoodWeakens(h: seq<Entry>, joined: nat, synced: nat, p: nat, q: nat, hz: nat, hz': nat, local: Store)
    requires RecordsOk(h) && synced <= hz <= hz' <= |h| && 0 < q <= p <= synced + 1 && (q == p || p == synced + 1)
    requires Good(h, joined, synced, p, hz, local)
    ensures Good(h, joined, synced, q, hz', local)
  {
    forall s: nat
      ensures GoodAt(h, joined, synced, q, hz', local, s)
    {
      assert GoodAt(h, joined, synced, p, hz, local, s);
      TextWeakens(h, joined, synced, p, q, hz, hz', local, s);
      hide TextAt;
      if Deleted(h, s, q - 1) { DeletedLater(h, s, q - 1, synced); }
      if Deleted(h, s, hz) { DeletedLater(h, s, hz, hz'); }
    }
  }

  lemma TextWeakens(h: seq<Entry>, joined: nat, synced: nat, p: nat, q: nat, hz: nat, hz': nat, x: Store, s: nat)
    requires synced <= hz <= hz' <= |h| && 0 < q <= p <= synced + 1 && (q == p || p == synced + 1)
    requires TextAt(h, joined, synced, p, hz, x, s)
    ensures TextAt(h, joined, synced, q, hz', x, s)
  {
    hide Fold, LastEdit;
    var k := LastEdit(h, joined, synced, s);
    if Deleted(h, k, hz) { DeletedLater(h, k, hz, hz'); }
  }

  // --- Facts about the last edit -------------------------------------------

  /** The last edit of a message decides its text; with none, the text is the original. */
  lemma {:induction false} LastEditDecides(h: seq<Entry>, joined: nat, n: nat, s: nat)
    requires RecordsOk(h) && n <= |h| && s in Fold(h, joined, n)
    ensures
      var m := Fold(h, joined, n)[s];
      var k := LastEdit(h, joined, n, s);
      && 0 < s <= n && IsPost(h[s - 1])
      && (k == 0 ==> m == Posted(h[s - 1]))
      && (k != 0 ==> IsEdit(h[k - 1]) && h[k - 1].payload.TextEdit? && h[s - 1].payload.Text?
                     && m == Rewritten(Posted(h[s - 1]), h[k - 1].payload.newBody))
    decreases n
  {
    hide Deleted, RecordsOk, Identity;
    FoldHolds(h, joined, n, s);
    var before := Fold(h, joined, n - 1);
    var hit := Hit(before, n, h[n - 1]);
    if s == n {
      assert LastEdit(h, joined, n, s) == 0;
    } else {
      FoldHolds(h, joined, n - 1, s);
      DeletedStep(h, s, n);
      assert s in before;
      LastEditDecides(h, joined, n - 1, s);
    }
  }

  /** What one row does to a message that both folds hold. */
  lemma LastEditStep(h: seq<Entry>, joined: nat, k: nat, s: nat)
    requires RecordsOk(h) && joined < k <= |h| && s != k && s in Fold(h, joined, k)
    ensures s in Fold(h, joined, k - 1)
    ensures
      var hit := Hit(Fold(h, joined, k - 1), k, h[k - 1]) == Some(s);
      && LastEdit(h, joined, k, s) == (if hit then k else LastEdit(h, joined, k - 1, s))
      && Fold(h, joined, k)[s] == (if hit then Rewritten(Fold(h, joined, k - 1)[s], h[k - 1].payload.newBody)
                                   else Fold(h, joined, k - 1)[s])
  {
    FoldHolds(h, joined, k, s);
    FoldHolds(h, joined, k - 1, s);
    DeletedStep(h, s, k);
    hide RecordsOk, Deleted, Identity;
  }

  // --- The device resolves edits as the history does ------------------------

  /** What a store's entries below k have in common when nothing deleted before k is among them. */
  ghost predicate Sound(h: seq<Entry>, joined: nat, k: nat, local: Store)
    requires 0 < k <= |h|
  {
    forall u :: u in local && u < k ==>
      joined < u && IsPost(h[u - 1]) && Identity(local[u], h[u - 1]) && !Deleted(h, u, k - 1)
  }

  /** A stored match that the history still holds is the message the edit means. */
  lemma EditMeans(h: seq<Entry>, joined: nat, k: nat, local: Store, o: nat)
    requires HistoryOk(h) && joined < k <= |h|
    requires Hit(local, k, h[k - 1]) == Some(o)
    requires joined < o && IsPost(h[o - 1]) && Identity(local[o], h[o - 1]) && !Deleted(h, o, k - 1)
    ensures Hit(Fold(h, joined, k - 1), k, h[k - 1]) == Some(o)
  {
    var e := h[k - 1];
    var fold := Fold(h, joined, k - 1);
    FoldHolds(h, joined, k - 1, o);
    assert Matches(fold, o, e.sender, e.payload.ref);
    var t := Original(fold, e.sender, e.payload.ref).value;
    FoldHolds(h, joined, k - 1, t);
    OneCandidate(h, k - 1, t, o);
  }

  /** When every stored message before the edit is still in the history, the device finds the one meant. */
  lemma EditFinds(h: seq<Entry>, joined: nat, k: nat, local: Store, t: nat)
    requires HistoryOk(h) && joined < k <= |h| && Sound(h, joined, k, local)
    requires Hit(Fold(h, joined, k - 1), k, h[k - 1]) == Some(t) && t in local
    ensures Hit(local, k, h[k - 1]) == Some(t)
  {
    var e := h[k - 1];
    FoldHolds(h, joined, k - 1, t);
    assert Matches(local, t, e.sender, e.payload.ref);
    var o := Original(local, e.sender, e.payload.ref).value;
    OneCandidate(h, k - 1, o, t);
  }

  /** What handling row `at` does to one entry of the store, or of the list on screen beside it. */
  ghost predicate Updated(local: Store, x: Store, y: Store, at: nat, e: Entry, s: nat) {
    s in y ==>
      if IsPost(e) && s == at then y[s] == Posted(e) || (s in x && y[s] == x[s])
      else if Hit(local, at, e) == Some(s) then s in x && s in local && y[s] == Rewritten(local[s], e.payload.newBody)
      else s in x && y[s] == x[s]
  }

  lemma StepUpdates(local: Store, at: nat, e: Entry, s: nat)
    ensures Updated(local, local, Step(local, at, e), at, e, s)
  {}

  lemma RewritingForgets(m: Stored, e: Entry, n: Stored, body: string)
    requires e.Message? && Identity(m, e) && Identity(n, e) && e.payload.Text?
    ensures Rewritten(m, body) == Rewritten(n, body)
  {}

  // --- One stale frame -------------------------------------------------------

  lemma GoodIsSound(h: seq<Entry>, joined: nat, synced: nat, p: nat, hz: nat, local: Store)
    requires synced <= hz <= |h| && 0 < p <= synced + 1 && p <= |h| && Good(h, joined, synced, p, hz, local)
    ensures Sound(h, joined, p, local)
  {
    forall u | u in local && u < p
      ensures joined < u && IsPost(h[u - 1]) && Identity(local[u], h[u - 1]) && !Deleted(h, u, p - 1)
    {
      assert GoodAt(h, joined, synced, p, hz, local, u);
    }
  }

  /** A replayed frame never needs to be replayed again. */
  lemma ReplayKeeps(h: seq<Entry>, joined: nat, synced: nat, p: nat, hz: nat, local: Store)
    requires HistoryOk(h) && joined < p <= synced <= hz <= |h|
    requires Good(h, joined, synced, p, hz, local)
    ensures Good(h, joined, synced, p + 1, hz, Step(local, p, h[p - 1]))
  {
    var after, q := Step(local, p, h[p - 1]), p + 1;
    GoodIsSound(h, joined, synced, p, hz, local);
    forall s: nat
      ensures GoodAt(h, joined, synced, q, hz, after, s)
    {
      assert GoodAt(h, joined, synced, p, hz, local, s);
      ReplayHoldsAt(h, joined, synced, p, hz, local, s);
      StepUpdates(local, p, h[p - 1], s);
      hide Step, HoldsAt, TextAt, Updated, Sound, HistoryOk;
      ReplayText(h, joined, synced, p, hz, local, local, after, s);
    }
  }

  lemma ReplayHoldsAt(h: seq<Entry>, joined: nat, synced: nat, p: nat, hz: nat, local: Store, s: nat)
    requires RecordsOk(h) && joined < p <= synced <= hz <= |h|
    requires HoldsAt(h, joined, synced, p, hz, local, s)
    ensures HoldsAt(h, joined, synced, p + 1, hz, Step(local, p, h[p - 1]), s)
  {
    DeletedStep(h, s, p);
    NotDeletedYet(h, p, p);
    if h[p - 1] == Deletion(s) {
      DeletedLater(h, s, p, hz);
    }
    hide RecordsOk, Deleted;
  }

  /** The history as of a replayed edit, on a message both hold. */
  lemma ReplayedEdit(h: seq<Entry>, joined: nat, p: nat, local: Store, s: nat)
    requires HistoryOk(h) && joined < p <= |h| && Sound(h, joined, p, local)
    requires s in local && s in Fold(h, joined, p) && s < p
    ensures s in Fold(h, joined, p - 1)
    ensures
      var hit := Hit(Fold(h, joined, p - 1), p, h[p - 1]) == Some(s);
      && (Hit(local, p, h[p - 1]) == Some(s) <==> hit)
      && LastEdit(h, joined, p, s) == (if hit then p else LastEdit(h, joined, p - 1, s))
      && (hit ==> Rewritten(local[s], h[p - 1].payload.newBody) == Fold(h, joined, p)[s])
      && (!hit ==> Fold(h, joined, p)[s] == Fold(h, joined, p - 1)[s])
  {
    LastEditStep(h, joined, p, s);
    FoldHolds(h, joined, p - 1, s);
    hide Fold, LastEdit, Deleted, RecordsOk, UniqueSurvivors;
    if Hit(Fold(h, joined, p - 1), p, h[p - 1]) == Some(s) {
      EditFinds(h, joined, p, local, s);
      RewritingForgets(local[s], h[s - 1], Fold(h, joined, p - 1)[s], h[p - 1].payload.newBody);
    } else if Hit(local, p, h[p - 1]) == Some(s) {
      EditMeans(h, joined, p, local, s);
    }
  }

  /** A message of the later fold was there before, once it was posted. */
  lemma FoldedBefore(h: seq<Entry>, joined: nat, m: nat, n: nat, s: nat)
    requires RecordsOk(h) && s <= m <= n <= |h| && s in Fold(h, joined, n)
    ensures s in Fold(h, joined, m) && 0 < s
  {
    FoldHolds(h, joined, n, s);
    FoldHolds(h, joined, m, s);
    if Deleted(h, s, m) { DeletedLater(h, s, m, n); }
  }

  lemma ReplayText(h: seq<Entry>, joined: nat, synced: nat, p: nat, hz: nat, local: Store, x: Store, y: Store, s: nat)
    requires HistoryOk(h) && joined < p <= synced <= hz <= |h| && Sound(h, joined, p, local)
    requires TextAt(h, joined, synced, p, hz, x, s) && Updated(local, x, y, p, h[p - 1], s)
    requires s in x ==> s in local
    ensures TextAt(h, joined, synced, p + 1, hz, y, s)
  {
    hide Fold, LastEdit, Deleted, RecordsOk, UniqueSurvivors, Sound;
    if s in y && s in Fold(h, joined, synced) {
      if s == p {
        FoldedBefore(h, joined, p, synced, s);
        LastEditDecides(h, joined, p, s);
      } else if s < p {
        FoldedBefore(h, joined, p, synced, s);
        ReplayedEdit(h, joined, p, local, s);
      }
    }
  }

  // --- One row that is new to the device -------------------------------------

  /** Rows the server skipped are gone from the table. */
  ghost predicate Skipped(h: seq<Entry>, lo: nat, hi: nat, hz: nat)
    requires hz <= |h|
  {
    forall s :: lo < s < hi ==> Deleted(h, s, hz)
  }

  lemma SkippedAreMessages(h: seq<Entry>, lo: nat, hi: nat, hz: nat, s: nat)
    requires RecordsOk(h) && hz <= |h| && Skipped(h, lo, hi, hz) && lo < s < hi
    ensures s <= hz && h[s - 1].Message?
  {
    assert Deleted(h, s, hz);
    var k :| 0 <= k < hz && h[k] == Deletion(s);
    assert 0 < h[k].target <= k;
  }

  /** Rows that were skipped change no earlier message but by edits whose rows are gone. */
  lemma {:induction false} GapKeeps(h: seq<Entry>, joined: nat, synced: nat, n: nat, hz: nat, s: nat)
    requires RecordsOk(h) && joined <= synced <= n < hz <= |h| && Skipped(h, synced, n + 1, hz)
    requires s <= synced
    ensures s in Fold(h, joined, n) <==> s in Fold(h, joined, synced)
    ensures s in Fold(h, joined, n) ==>
      || Deleted(h, LastEdit(h, joined, n, s), hz)
      || (Fold(h, joined, n)[s] == Fold(h, joined, synced)[s]
          && LastEdit(h, joined, n, s) == LastEdit(h, joined, synced, s))
    ensures Deleted(h, s, n) <==> Deleted(h, s, synced)
    decreases n
  {
    if synced < n {
      GapKeeps(h, joined, synced, n - 1, hz, s);
      SkippedAreMessages(h, synced, n + 1, hz, n);
      DeletedStep(h, s, n);
    }
  }

  /** Where the replay starts after a new row: nowhere if nothing was pending, else where it was. */
  function NextPending(synced: nat, p: nat, k: nat): nat {
    if p == synced + 1 then k + 1 else p
  }

  /** Handling a new row k keeps the store good, whether or not a replay is pending. */
  lemma AdvanceKeeps(h: seq<Entry>, joined: nat, synced: nat, k: nat, p: nat, hz: nat, local: Store)
    requires HistoryOk(h) && joined <= synced < k <= hz <= |h| && 0 < p <= synced + 1
    requires Skipped(h, synced, k, hz) && Good(h, joined, synced, p, hz, local)
    ensures Good(h, joined, k, NextPending(synced, p, k), hz, Step(local, k, h[k - 1]))
  {
    var q := NextPending(synced, p, k);
    var after := Step(local, k, h[k - 1]);
    GoodHolds(h, joined, synced, p, hz, local);
    forall s: nat
      ensures GoodAt(h, joined, k, q, hz, after, s)
    {
      assert GoodAt(h, joined, synced, p, hz, local, s);
      AdvanceHoldsAt(h, joined, synced, k, p, hz, local, s);
      StepUpdates(local, k, h[k - 1], s);
      hide Step, Holds, HoldsAt, TextAt, Updated, HistoryOk, Skipped;
      AdvanceText(h, joined, synced, k, p, hz, local, local, after, s);
    }
  }

  lemma AdvanceHoldsAt(h: seq<Entry>, joined: nat, synced: nat, k: nat, p: nat, hz: nat, local: Store, s: nat)
    requires RecordsOk(h) && joined <= synced < k <= hz <= |h| && 0 < p <= synced + 1
    requires Skipped(h, synced, k, hz) && HoldsAt(h, joined, synced, p, hz, local, s)
    ensures HoldsAt(h, joined, k, NextPending(synced, p, k), hz, Step(local, k, h[k - 1]), s)
  {
    DeletedStep(h, s, k);
    NotDeletedYet(h, k, k);
    if s <= synced {
      GapKeeps(h, joined, synced, k - 1, hz, s);
    }
    if h[k - 1] == Deletion(s) {
      DeletedLater(h, s, k, hz);
    }
    hide RecordsOk, Fold, LastEdit;
  }

  /** The text before a new row, the skipped rows counted in. */
  lemma TextAcrossGap(h: seq<Entry>, joined: nat, synced: nat, k: nat, p: nat, hz: nat, x: Store, s: nat)
    requires RecordsOk(h) && joined <= synced < k <= hz <= |h| && 0 < p <= synced + 1
    requires Skipped(h, synced, k, hz) && TextAt(h, joined, synced, p, hz, x, s) && (s in x ==> s <= synced)
    ensures TextAt(h, joined, k - 1, if p == synced + 1 then k else p, hz, x, s)
  {
    if s in x && s in Fold(h, joined, k - 1) {
      GapKeeps(h, joined, synced, k - 1, hz, s);
      hide Skipped, RecordsOk;
      if !Deleted(h, LastEdit(h, joined, k - 1, s), hz) {
        TextMoves(h, joined, synced, k - 1, p, hz, x, s);
      }
    }
  }

  lemma TextMoves(h: seq<Entry>, joined: nat, synced: nat, n: nat, p: nat, hz: nat, x: Store, s: nat)
    requires synced <= n <= hz <= |h| && 0 < p <= synced + 1 && s in x
    requires s in Fold(h, joined, n) && s in Fold(h, joined, synced)
    requires Fold(h, joined, n)[s] == Fold(h, joined, synced)[s]
    requires LastEdit(h, joined, n, s) == LastEdit(h, joined, synced, s)
    requires TextAt(h, joined, synced, p, hz, x, s)
    ensures TextAt(h, joined, n, if p == synced + 1 then n + 1 else p, hz, x, s)
  {
    hide Fold, LastEdit, Deleted, Reused;
  }

  lemma StaysDeleted(h: seq<Entry>, s: nat, m: nat, n: nat)
    requires m <= |h| && n <= |h| && Deleted(h, s, m)
    ensures m <= n ==> Deleted(h, s, n)
  {}

  /**
   A new edit that the device does not apply to the message it means: an earlier
   message with the same client id, deleted since, is back in the store.
   */
  lemma MisledEdit(h: seq<Entry>, joined: nat, synced: nat, k: nat, p: nat, hz: nat, local: Store, s: nat)
    requires HistoryOk(h) && joined <= synced < k <= hz <= |h| && 0 < p <= synced + 1
    requires Skipped(h, synced, k, hz) && Holds(h, joined, synced, p, hz, local) && s in local
    requires Hit(Fold(h, joined, k - 1), k, h[k - 1]) == Some(s) && Hit(local, k, h[k - 1]) != Some(s)
    ensures p <= s && Reused(h, joined, p, s)
  {
    var e := h[k - 1];
    FoldHolds(h, joined, k - 1, s);
    assert HoldsAt(h, joined, synced, p, hz, local, s);
    assert Matches(local, s, e.sender, e.payload.ref);
    var u := Original(local, e.sender, e.payload.ref).value;
    assert HoldsAt(h, joined, synced, p, hz, local, u);
    assert u < s && SameClientId(h[u - 1], h[s - 1]);
    hide Fold, LastEdit, Holds, Hit, Original, Identity, Skipped;
    MisledTwin(h, joined, synced, p, u, s);
  }

  /** A stored twin of a later message is one that was put back and not removed again yet. */
  lemma MisledTwin(h: seq<Entry>, joined: nat, synced: nat, p: nat, u: nat, s: nat)
    requires UniqueSurvivors(h) && synced <= |h| && 0 < p <= synced + 1 && joined < u < s <= synced
    requires IsPost(h[u - 1]) && SameClientId(h[u - 1], h[s - 1])
    requires !Deleted(h, u, if u < p then p - 1 else synced)
    ensures p <= s && Reused(h, joined, p, s)
  {
    assert Twin(h, u, s);
    assert Deleted(h, u - 1 + 1, s - 1);
    StaysDeleted(h, u, s - 1, if u < p then p - 1 else synced);
    hide Deleted, UniqueSurvivors;
  }

  /** A new edit on a message both hold: it lands, or it is misled. */
  lemma AdvancedEdit(h: seq<Entry>, joined: nat, synced: nat, k: nat, p: nat, hz: nat, local: Store, s: nat)
    requires HistoryOk(h) && joined <= synced < k <= hz <= |h| && 0 < p <= synced + 1
    requires Skipped(h, synced, k, hz) && Holds(h, joined, synced, p, hz, local)
    requires s in local && s in Fold(h, joined, k) && s != k
    ensures s in Fold(h, joined, k - 1)
    ensures
      var hit := Hit(Fold(h, joined, k - 1), k, h[k - 1]) == Some(s);
      && (Hit(local, k, h[k - 1]) == Some(s) ==> hit)
      && (hit ==> Hit(local, k, h[k - 1]) == Some(s) || (p <= s && Reused(h, joined, p, s)))
      && LastEdit(h, joined, k, s) == (if hit then k else LastEdit(h, joined, k - 1, s))
      && (hit ==> local[s].payload.Text?
                  && Rewritten(local[s], h[k - 1].payload.newBody) == Fold(h, joined, k)[s])
      && (!hit ==> Fold(h, joined, k)[s] == Fold(h, joined, k - 1)[s])
  {
    LastEditStep(h, joined, k, s);
    FoldHolds(h, joined, k - 1, s);
    assert HoldsAt(h, joined, synced, p, hz, local, s);
    hide Fold, LastEdit, Deleted, RecordsOk, UniqueSurvivors, Holds, Skipped, Reused;
    if Hit(Fold(h, joined, k - 1), k, h[k - 1]) == Some(s) {
      if Hit(local, k, h[k - 1]) != Some(s) {
        MisledEdit(h, joined, synced, k, p, hz, local, s);
      }
      RewritingForgets(local[s], h[s - 1], Fold(h, joined, k - 1)[s], h[k - 1].payload.newBody);
    } else if Hit(local, k, h[k - 1]) == Some(s) {
      EditMeans(h, joined, k, local, s);
    }
  }

  lemma AdvanceText(h: seq<Entry>, joined: nat, synced: nat, k: nat, p: nat, hz: nat,
                    local: Store, x: Store, y: Store, s: nat)
    requires HistoryOk(h) && joined <= synced < k <= hz <= |h| && 0 < p <= synced + 1
    requires Skipped(h, synced, k, hz) && Holds(h, joined, synced, p, hz, local)
    requires TextAt(h, joined, synced, p, hz, x, s) && Updated(local, x, y, k, h[k - 1], s)
    requires s in x ==> s in local
    ensures TextAt(h, joined, k, NextPending(synced, p, k), hz, y, s)
  {
    assert s in local ==> s <= synced by {
      assert HoldsAt(h, joined, synced, p, hz, local, s);
    }
    hide Fold, LastEdit, Deleted, RecordsOk, UniqueSurvivors, Holds, Skipped, Reused, Hit, Identity, TextAt;
    TextAcrossGap(h, joined, synced, k, p, hz, x, s);
    if s in y && s in Fold(h, joined, k) {
      if s == k {
        NewText(h, joined, k, NextPending(synced, p, k), hz, local, x, y);
      } else {
        AdvancedEdit(h, joined, synced, k, p, hz, local, s);
        NextText(h, joined, k, if p == synced + 1 then k else p, hz, local, x, y, s);
      }
    } else {
      assert TextAt(h, joined, k, NextPending(synced, p, k), hz, y, s) by {
        NoText(h, joined, k, NextPending(synced, p, k), hz, y, s);
      }
    }
  }

  lemma NoText(h: seq<Entry>, joined: nat, k: nat, q: nat, hz: nat, y: Store, s: nat)
    requires k <= hz <= |h| && 0 < q <= k + 1 && !(s in y && s in Fold(h, joined, k))
    ensures TextAt(h, joined, k, q, hz, y, s)
  {}

  lemma NewText(h: seq<Entry>, joined: nat, k: nat, q: nat, hz: nat, local: Store, x: Store, y: Store)
    requires RecordsOk(h) && 0 < k <= hz <= |h| && 0 < q <= k + 1
    requires Updated(local, x, y, k, h[k - 1], k) && k !in x && k !in local && k in y && k in Fold(h, joined, k)
    ensures TextAt(h, joined, k, q, hz, y, k)
  {
    LastEditDecides(h, joined, k, k);
    hide Fold, LastEdit, RecordsOk, Deleted, Hit;
  }

  /** The text of an earlier message after row k, from what the row does to it in the history and on the device. */
  lemma NextText(h: seq<Entry>, joined: nat, k: nat, q: nat, hz: nat, local: Store, x: Store, y: Store, s: nat)
    requires 0 < k <= hz <= |h| && 0 < q <= k && s != k && s in y && s in local
    requires s in Fold(h, joined, k) && s in Fold(h, joined, k - 1)
    requires TextAt(h, joined, k - 1, q, hz, x, s) && Updated(local, x, y, k, h[k - 1], s)
    requires
      var hit := Hit(Fold(h, joined, k - 1), k, h[k - 1]) == Some(s);
      && (Hit(local, k, h[k - 1]) == Some(s) ==> hit)
      && (hit ==> Hit(local, k, h[k - 1]) == Some(s) || (q <= s && Reused(h, joined, q, s)))
      && LastEdit(h, joined, k, s) == (if hit then k else LastEdit(h, joined, k - 1, s))
      && (hit ==> local[s].payload.Text?
                  && Rewritten(local[s], h[k - 1].payload.newBody) == Fold(h, joined, k)[s])
      && (!hit ==> Fold(h, joined, k)[s] == Fold(h, joined, k - 1)[s])
    ensures TextAt(h, joined, k, if q == k then k + 1 else q, hz, y, s)
  {
    hide Fold, LastEdit, Deleted, Reused, Hit;
  }

  // --- Losing the frames that were still to come --------------------------------

  /** The frames f .. n do nothing to message s below f, but by an edit whose row is gone anyway. */
  ghost predicate SpareBelow(h: seq<Entry>, joined: nat, f: nat, n: nat, hz: nat, s: nat)
    requires 0 < f <= n + 1 && n <= hz <= |h|
  {
    s in Fold(h, joined, f - 1) ==>
      && s in Fold(h, joined, n)
      && (Fold(h, joined, f - 1)[s] == Fold(h, joined, n)[s] || Deleted(h, LastEdit(h, joined, n, s), hz))
  }

  /** Message s beyond them has a client id of its own, or no edit that is still there. */
  ghost predicate SpareBeyond(h: seq<Entry>, joined: nat, f: nat, n: nat, hz: nat, s: nat)
    requires 0 < f <= n + 1 && n <= hz <= |h|
  {
    f <= s <= |h| && s in Fold(h, joined, n) && Reused(h, joined, f, s) ==>
      LastEdit(h, joined, n, s) == 0 || Deleted(h, LastEdit(h, joined, n, s), hz)
  }

  /** The frames f .. n may be lost. */
  ghost predicate FramesSpare(h: seq<Entry>, joined: nat, f: nat, n: nat, hz: nat)
    requires 0 < f <= n + 1 && n <= hz <= |h|
  {
    forall s: nat :: SpareBelow(h, joined, f, n, hz, s) && SpareBeyond(h, joined, f, n, hz, s)
  }

  /** A store that waits for such frames is as good without them. */
  lemma SpareFramesKeep(h: seq<Entry>, joined: nat, n: nat, f: nat, hz: nat, local: Store)
    requires RecordsOk(h) && n <= hz <= |h| && 0 < f <= n + 1
    requires Good(h, joined, n, f, hz, local) && FramesSpare(h, joined, f, n, hz)
    ensures Good(h, joined, n, n + 1, hz, local)
  {
    var end := n + 1;
    forall s: nat
      ensures GoodAt(h, joined, n, end, hz, local, s)
    {
      assert GoodAt(h, joined, n, f, hz, local, s);
      FoldHolds(h, joined, f - 1, s);
      FoldHolds(h, joined, n, s);
      assert SpareBelow(h, joined, f, n, hz, s) && SpareBeyond(h, joined, f, n, hz, s);
      hide Fold, LastEdit, FramesSpare;
      SpareText(h, joined, n, f, hz, local, s);
    }
  }

  lemma SpareText(h: seq<Entry>, joined: nat, n: nat, f: nat, hz: nat, x: Store, s: nat)
    requires RecordsOk(h) && n <= hz <= |h| && 0 < f <= n + 1
    requires TextAt(h, joined, n, f, hz, x, s)
    requires SpareBelow(h, joined, f, n, hz, s) && SpareBeyond(h, joined, f, n, hz, s)
    ensures TextAt(h, joined, n, n + 1, hz, x, s)
  {
    if s in x && s in Fold(h, joined, n) && s < f && s <= |h| {
      EditChanges(h, joined, f - 1, n, s);
      hide Fold, LastEdit, Deleted, RecordsOk, Reused;
      SpareTextBelow(h, joined, n, f, hz, x, s);
    } else if s in x && s in Fold(h, joined, n) {
      FoldHolds(h, joined, n, s);
      hide Fold, LastEdit, Deleted, RecordsOk, Reused, SpareBelow;
    } else {
      NoText(h, joined, n, n + 1, hz, x, s);
    }
  }

  /** A message edited only after row m has another text at n. */
  lemma EditChanges(h: seq<Entry>, joined: nat, m: nat, n: nat, s: nat)
    requires RecordsOk(h) && s <= m <= n <= |h| && s in Fold(h, joined, n)
    ensures s in Fold(h, joined, m)
    ensures LastEdit(h, joined, n, s) != 0 && LastEdit(h, joined, m, s) == 0 ==>
            Fold(h, joined, m)[s] != Fold(h, joined, n)[s]
  {
    FoldedBefore(h, joined, m, n, s);
    LastEditDecides(h, joined, m, s);
    LastEditDecides(h, joined, n, s);
    hide Fold, LastEdit, RecordsOk;
  }

  /** With its edits all to come, a message below f is as posted at f, so what is lost would have to matter. */
  lemma SpareTextBelow(h: seq<Entry>, joined: nat, n: nat, f: nat, hz: nat, x: Store, s: nat)
    requires n <= hz <= |h| && 0 < f <= n + 1 && s in x && s <= |h| && s < f
    requires s in Fold(h, joined, n) && s in Fold(h, joined, f - 1)
    requires
      var k, was := LastEdit(h, joined, n, s), LastEdit(h, joined, f - 1, s);
      k != 0 && was == 0 ==> Fold(h, joined, f - 1)[s] != Fold(h, joined, n)[s]
    requires TextAt(h, joined, n, f, hz, x, s) && SpareBelow(h, joined, f, n, hz, s)
    ensures TextAt(h, joined, n, n + 1, hz, x, s)
  {
    hide Fold, LastEdit, Deleted, Reused;
  }
}
