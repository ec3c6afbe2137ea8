/**
 The list of messages on screen, kept beside the stored ones. It differs from
 the store in one respect: a row that is already listed is not put again, so a
 replayed message does not bring its old text back to the screen.
 */
module Screen {
  import opened Wrappers
  import opened History
  import opened Replication

  /** What handling row `at` does to the list, given the store it is handled against. */
  ghost function StepShown(shown: Store, store: Store, at: nat, e: Entry): Store {
    match e
    case Deletion(t) => shown - {t}
    case Message(_, _, _, _) =>
      if IsEdit(e) then
        match Hit(store, at, e)
        case None => shown
        case Some(o) => if o in shown then shown[o := Rewritten(store[o], e.payload.newBody)] else shown
      else if at in shown then shown
      else shown[at := Posted(e)]
  }

  lemma StepShownUpdates(shown: Store, store: Store, at: nat, e: Entry, s: nat)
    ensures Updated(store, shown, StepShown(shown, store, at, e), at, e, s)
  {}

  lemma StepShownKeys(shown: Store, store: Store, at: nat, e: Entry)
    requires shown.Keys == store.Keys
    ensures StepShown(shown, store, at, e).Keys == Step(store, at, e).Keys
  {}

  /** The list names the stored messages, each with a text the store might have as well. */
  ghost predicate ShownGood(h: seq<Entry>, joined: nat, synced: nat, p: nat, hz: nat, local: Store, shown: Store)
    requires synced <= hz <= |h| && 0 < p <= synced + 1
  {
    shown.Keys == local.Keys && forall s: nat :: TextAt(h, joined, synced, p, hz, shown, s)
  }

  lemma ShownIsExact(h: seq<Entry>, joined: nat, synced: nat, local: Store, shown: Store)
    requires RecordsOk(h) && synced <= |h| && Agrees(h, joined, synced, local)
    requires ShownGood(h, joined, synced, synced + 1, synced, local, shown)
    ensures Agrees(h, joined, synced, shown)
  {
    hide Fold, LastEdit, Deleted, RecordsOk;
    var f, end := Fold(h, joined, synced), synced + 1;
    forall s: nat | s in shown
      ensures shown[s] == f[s] || Deleted(h, LastEdit(h, joined, synced, s), synced)
    {
      assert TextAt(h, joined, synced, end, synced, shown, s);
      FoldHolds(h, joined, synced, s);
    }
  }

  lemma ReplayKeepsShown(h: seq<Entry>, joined: nat, synced: nat, p: nat, hz: nat, local: Store, shown: Store)
    requires HistoryOk(h) && joined < p <= synced <= hz <= |h|
    requires Good(h, joined, synced, p, hz, local) && ShownGood(h, joined, synced, p, hz, local, shown)
    ensures ShownGood(h, joined, synced, p + 1, hz, Step(local, p, h[p - 1]), StepShown(shown, local, p, h[p - 1]))
  {
    var list, q := StepShown(shown, local, p, h[p - 1]), p + 1;
    GoodIsSound(h, joined, synced, p, hz, local);
    StepShownKeys(shown, local, p, h[p - 1]);
    forall s: nat
      ensures TextAt(h, joined, synced, q, hz, list, s)
    {
      StepShownUpdates(shown, local, p, h[p - 1], s);
      assert TextAt(h, joined, synced, p, hz, shown, s);
      hide StepShown, TextAt, Updated, Sound, HistoryOk, Good;
      ReplayText(h, joined, synced, p, hz, local, shown, list, s);
    }
  }

  lemma AdvanceKeepsShown(h: seq<Entry>, joined: nat, synced: nat, k: nat, p: nat, hz: nat, local: Store, shown: Store)
    requires HistoryOk(h) && joined <= synced < k <= hz <= |h| && 0 < p <= synced + 1
    requires Skipped(h, synced, k, hz) && Good(h, joined, synced, p, hz, local)
    requires ShownGood(h, joined, synced, p, hz, local, shown)
    ensures ShownGood(h, joined, k, NextPending(synced, p, k), hz,
                      Step(local, k, h[k - 1]), StepShown(shown, local, k, h[k - 1]))
  {
    var list, q := StepShown(shown, local, k, h[k - 1]), NextPending(synced, p, k);
    StepShownKeys(shown, local, k, h[k - 1]);
    GoodHolds(h, joined, synced, p, hz, local);
    forall s: nat
      ensures TextAt(h, joined, k, q, hz, list, s)
    {
      StepShownUpdates(shown, local, k, h[k - 1], s);
      assert TextAt(h, joined, synced, p, hz, shown, s);
      hide StepShown, TextAt, Updated, HistoryOk, Good, Holds, Skipped;
      AdvanceText(h, joined, synced, k, p, hz, local, shown, list, s);
    }
  }

  /** A message that is listed is not put again: its text on screen stays, though the store's goes back. */
  lemma ListedStays(shown: Store, store: Store, at: nat, e: Entry)
    requires IsPost(e)
    ensures StepShown(shown, store, at, e) == if at in shown then shown else shown[at := Posted(e)]
  {}

  // --- Store and list together ---------------------------------------------------

  /** The stored messages and, once the conversation was opened, the list on screen. */
  datatype View = View(store: Store, shown: Option<Store>)

  ghost function StepView(v: View, at: nat, e: Entry): View {
    View(Step(v.store, at, e), if v.shown.None? then None else Some(StepShown(v.shown.value, v.store, at, e)))
  }

  /** Message s is the one an edit of row `at` means: the sender's first under that client id, a text, and older. */
  predicate Means(store: Store, at: nat, sender: Account, ref: ClientId, s: nat) {
    && Matches(store, s, sender, ref) && (forall t :: Matches(store, t, sender, ref) ==> s <= t)
    && store[s].payload.Text? && s < at
  }

  /** What one edit does to some messages: the one it means has the new text and the mark, every other is as it was. */
  ghost predicate EditedIn(store: Store, before: Store, after: Store, at: nat, sender: Account, ref: ClientId,
                           body: string)
  {
    && after.Keys == before.Keys
    && (forall s :: s in before && Means(store, at, sender, ref, s) ==>
          after[s] == Stored(sender, ref, store[s].serverTs, Text(body, store[s].payload.reply), true))
    && (forall s :: s in before && !Means(store, at, sender, ref, s) ==> after[s] == before[s])
  }

  /**
   What handling a row does to store and list, for every kind of row: a record removes its target, an
   edit rewrites the message it means, a malformed one does nothing, and everything else is a message
   of its own, put as it was sent, and listed unless its number is.
   */
  lemma HandledExactly(v: View, at: nat, e: Entry)
    ensures
      var r := StepView(v, at, e);
      && (v.shown.None? <==> r.shown.None?)
      && match e
         case Deletion(t) => r.store == v.store - {t} && (v.shown.Some? ==> r.shown.value == v.shown.value - {t})
         case Message(_, _, _, MalformedEdit) => r == v
         case Message(sender, _, _, TextEdit(ref, body)) =>
           && EditedIn(v.store, v.store, r.store, at, sender, ref, body)
           && (v.shown.Some? ==> EditedIn(v.store, v.shown.value, r.shown.value, at, sender, ref, body))
         case Message(sender, id, ts, payload) =>
           var m := Stored(sender, id, ts, payload, false);
           && r.store == v.store[at := m]
           && (v.shown.Some? ==> r.shown.value == if at in v.shown.value then v.shown.value else v.shown.value[at := m])
  {
    if e.Message? && e.payload.TextEdit? {
      HitIsMeant(v.store, at, e);
      hide Original, Means, Hit;
    }
  }

  lemma HitIsMeant(store: Store, at: nat, e: Entry)
    requires e.Message? && e.payload.TextEdit?
    ensures forall s: nat :: Hit(store, at, e) == Some(s) <==> Means(store, at, e.sender, e.payload.ref, s)
  {}

  ghost predicate GoodView(h: seq<Entry>, joined: nat, synced: nat, p: nat, hz: nat, v: View)
    requires synced <= hz <= |h| && 0 < p <= synced + 1
  {
    && Good(h, joined, synced, p, hz, v.store)
    && (v.shown.Some? ==> ShownGood(h, joined, synced, p, hz, v.store, v.shown.value))
  }

  /** Store and list hold the messages of the fold, their texts final unless the last edit's row was deleted. */
  ghost predicate ViewAgrees(h: seq<Entry>, joined: nat, n: nat, v: View)
    requires n <= |h|
  {
    Agrees(h, joined, n, v.store) && (v.shown.Some? ==> Agrees(h, joined, n, v.shown.value))
  }

  lemma ViewIsExact(h: seq<Entry>, joined: nat, synced: nat, v: View)
    requires RecordsOk(h) && synced <= |h| && GoodView(h, joined, synced, synced + 1, synced, v)
    ensures ViewAgrees(h, joined, synced, v)
  {
    GoodIsExact(h, joined, synced, v.store);
    if v.shown.Some? { ShownIsExact(h, joined, synced, v.store, v.shown.value); }
  }

  /** Where no record removes a last edit, that is the plain fold. */
  lemma ViewAgreesExactly(h: seq<Entry>, joined: nat, n: nat, v: View)
    requires n <= |h| && LastEditsKept(h, joined, n)
    ensures ViewAgrees(h, joined, n, v) <==>
            v.store == Fold(h, joined, n) && (v.shown.Some? ==> v.shown.value == Fold(h, joined, n))
  {
    AgreesExactly(h, joined, n, v.store);
    if v.shown.Some? { AgreesExactly(h, joined, n, v.shown.value); }
    hide Agrees, LastEditsKept, Fold;
  }

  lemma ViewWeakens(h: seq<Entry>, joined: nat, synced: nat, p: nat, q: nat, hz: nat, hz': nat, v: View)
    requires RecordsOk(h) && synced <= hz <= hz' <= |h| && 0 < q <= p <= synced + 1 && (q == p || p == synced + 1)
    requires GoodView(h, joined, synced, p, hz, v)
    ensures GoodView(h, joined, synced, q, hz', v)
  {
    GoodWeakens(h, joined, synced, p, q, hz, hz', v.store);
    if v.shown.Some? {
      forall s: nat
        ensures TextAt(h, joined, synced, q, hz', v.shown.value, s)
      {
        assert TextAt(h, joined, synced, p, hz, v.shown.value, s);
        TextWeakens(h, joined, synced, p, q, hz, hz', v.shown.value, s);
      }
    }
    hide Good, TextAt;
  }

  lemma ReplayKeepsView(h: seq<Entry>, joined: nat, synced: nat, p: nat, hz: nat, v: View)
    requires HistoryOk(h) && joined < p <= synced <= hz <= |h| && GoodView(h, joined, synced, p, hz, v)
    ensures GoodView(h, joined, synced, p + 1, hz, StepView(v, p, h[p - 1]))
  {
    ReplayKeeps(h, joined, synced, p, hz, v.store);
    if v.shown.Some? { ReplayKeepsShown(h, joined, synced, p, hz, v.store, v.shown.value); }
  }

  lemma AdvanceKeepsView(h: seq<Entry>, joined: nat, synced: nat, k: nat, p: nat, hz: nat, v: View)
    requires HistoryOk(h) && joined <= synced < k <= hz <= |h| && 0 < p <= synced + 1
    requires Skipped(h, synced, k, hz) && GoodView(h, joined, synced, p, hz, v)
    ensures GoodView(h, joined, k, NextPending(synced, p, k), hz, StepView(v, k, h[k - 1]))
  {
    AdvanceKeeps(h, joined, synced, k, p, hz, v.store);
    if v.shown.Some? { AdvanceKeepsShown(h, joined, synced, k, p, hz, v.store, v.shown.value); }
  }

  /** Store and list are as good without frames that may be lost. */
  lemma SpareFramesKeepView(h: seq<Entry>, joined: nat, n: nat, f: nat, hz: nat, v: View)
    requires RecordsOk(h) && n <= hz <= |h| && 0 < f <= n + 1
    requires GoodView(h, joined, n, f, hz, v) && FramesSpare(h, joined, f, n, hz)
    ensures GoodView(h, joined, n, n + 1, hz, v)
  {
    var end := n + 1;
    SpareFramesKeep(h, joined, n, f, hz, v.store);
    if v.shown.Some? {
      forall s: nat
        ensures TextAt(h, joined, n, end, hz, v.shown.value, s)
      {
        assert TextAt(h, joined, n, f, hz, v.shown.value, s);
        assert SpareBelow(h, joined, f, n, hz, s) && SpareBeyond(h, joined, f, n, hz, s);
        SpareText(h, joined, n, f, hz, v.shown.value, s);
      }
    }
    hide Good, TextAt, FramesSpare, RecordsOk;
  }

  function Without(v: View, s: nat): View {
    View(v.store - {s}, if v.shown.None? then None else Some(v.shown.value - {s}))
  }

  /** Forgetting a message that the log records as deleted is always allowed. */
  lemma ForgettingKeepsView(h: seq<Entry>, joined: nat, synced: nat, p: nat, hz: nat, v: View, d: nat)
    requires synced <= hz <= |h| && 0 < p <= synced + 1 && Deleted(h, d, hz)
    requires GoodView(h, joined, synced, p, hz, v)
    ensures GoodView(h, joined, synced, p, hz, Without(v, d))
  {
    var w := Without(v, d);
    forall s: nat
      ensures GoodAt(h, joined, synced, p, hz, w.store, s)
    {
      assert GoodAt(h, joined, synced, p, hz, v.store, s);
    }
    if v.shown.Some? {
      var list := w.shown.value;
      forall s: nat
        ensures TextAt(h, joined, synced, p, hz, list, s)
      {
        assert TextAt(h, joined, synced, p, hz, v.shown.value, s);
      }
    }
  }

  /** Opening the conversation lists what is stored. */
  lemma LoadingKeepsView(h: seq<Entry>, joined: nat, synced: nat, p: nat, hz: nat, v: View)
    requires synced <= hz <= |h| && 0 < p <= synced + 1
    requires GoodView(h, joined, synced, p, hz, v)
    ensures GoodView(h, joined, synced, p, hz, View(v.store, Some(v.store)))
  {
    forall s: nat
      ensures TextAt(h, joined, synced, p, hz, v.store, s)
    {
      assert GoodAt(h, joined, synced, p, hz, v.store, s);
    }
  }
}
