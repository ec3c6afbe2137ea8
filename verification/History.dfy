/**
 The ordered history of one conversation and the message store it folds to.

 Position i of a history holds the row with sequence number i + 1: the server
 numbers rows from 1 without gaps. A history keeps every row ever inserted,
 the ones deleted since included.
 */
module History {
  import opened Wrappers

  type Account = string
  type ClientId = string

  /** A decrypted payload, or what stands in for it when decryption fails. */
  datatype Payload =
    | Text(body: string, reply: string)
    | TextEdit(ref: ClientId, newBody: string)
    | MalformedEdit
    | ConvCreate(title: string, initial: seq<Account>)
    | Membership(members: seq<Account>)
    | Rename(newTitle: string)
    | Opaque(tag: string)
    | Unreadable(reason: string)

  /** A row of the log: an envelope as the device decodes it, or a deletion record. */
  datatype Entry =
    | Message(sender: Account, clientId: ClientId, serverTs: int, payload: Payload)
    | Deletion(target: nat)

  /** A message in the device's own store. */
  datatype Stored = Stored(sender: Account, clientId: ClientId, serverTs: int, payload: Payload, edited: bool)

  type Store = map<nat, Stored>

  predicate IsEdit(e: Entry) {
    e.Message? && (e.payload.TextEdit? || e.payload.MalformedEdit?)
  }

  /** A row that shows up as a message of its own. */
  predicate IsPost(e: Entry) {
    e.Message? && !IsEdit(e)
  }

  function Posted(e: Entry): Stored
    requires e.Message?
  {
    Stored(e.sender, e.clientId, e.serverTs, e.payload, false)
  }

  // --- Edits -------------------------------------------------------------

  predicate Matches(store: Store, s: nat, sender: Account, ref: ClientId) {
    s in store && store[s].sender == sender && store[s].clientId == ref
  }

  /** Looking upwards from a bound below all keys finds the least before any key is passed. */
  lemma {:induction false} LeastFrom(keys: set<nat>, low: nat, key: nat)
    requires key in keys && low <= key && forall t :: t in keys ==> low <= t
    ensures exists s :: s in keys && forall t :: t in keys ==> s <= t
    decreases key - low
  {
    if low !in keys {
      LeastFrom(keys, low + 1, key);
    }
  }

  lemma LeastExists(keys: set<nat>)
    requires keys != {}
    ensures exists s :: s in keys && forall t :: t in keys ==> s <= t
  {
    var key :| key in keys;
    LeastFrom(keys, 0, key);
  }

  /** The message an edit looks up: the first in key order with that author and client id. */
  ghost function Original(store: Store, sender: Account, ref: ClientId): (r: Option<nat>)
    ensures r.None? ==> forall s :: !Matches(store, s, sender, ref)
    ensures r.Some? ==> Matches(store, r.value, sender, ref)
                        && forall s :: Matches(store, s, sender, ref) ==> r.value <= s
  {
    var keys := set s | s in store && Matches(store, s, sender, ref);
    if keys == {} then
      assert forall s :: Matches(store, s, sender, ref) ==> s in keys;
      None
    else
      LeastExists(keys);
      var s :| s in keys && forall t :: t in keys ==> s <= t;
      assert forall t :: Matches(store, t, sender, ref) ==> t in keys;
      Some(s)
  }

  /** The key whose text row `at` rewrites, if it rewrites any. */
  ghost function Hit(store: Store, at: nat, e: Entry): (r: Option<nat>)
    ensures r.Some? ==> r.value in store && r.value < at && store[r.value].payload.Text?
                        && e.Message? && e.payload.TextEdit? && Matches(store, r.value, e.sender, e.payload.ref)
  {
    if e.Message? && e.payload.TextEdit? then
      match Original(store, e.sender, e.payload.ref)
      case None => None
      case Some(o) => if store[o].payload.Text? && o < at then Some(o) else None
    else None
  }

  function Rewritten(m: Stored, body: string): Stored
    requires m.payload.Text?
  {
    m.(payload := m.payload.(body := body), edited := true)
  }

  /** What handling one row does to the message store. */
  ghost function Step(store: Store, at: nat, e: Entry): Store {
    match e
    case Deletion(t) => store - {t}
    case Message(_, _, _, _) =>
      if IsEdit(e) then
        match Hit(store, at, e)
        case None => store
        case Some(o) => store[o := Rewritten(store[o], e.payload.newBody)]
      else
        store[at := Posted(e)]
  }

  // --- The reference: the plain fold of the whole history -----------------

  /** Folds rows joined+1 .. n of the history in order, deleted ones included. */
  ghost function Fold(h: seq<Entry>, joined: nat, n: nat): Store
    requires n <= |h|
    decreases n
  {
    if n <= joined then map[] else Step(Fold(h, joined, n - 1), n, h[n - 1])
  }

  /** Some record among the first n rows removes row s. */
  predicate Deleted(h: seq<Entry>, s: nat, n: nat)
    requires n <= |h|
  {
    exists k :: 0 <= k < n && h[k] == Deletion(s)
  }

  /**
   What the server guarantees about a history (see ServerHistory.LogIsHistory):
   a record names an earlier message that was still there, and two rows of one
   sender with the same client id never coexist.
   */
  predicate RecordsOk(h: seq<Entry>) {
    forall i :: 0 <= i < |h| && h[i].Deletion? ==>
      0 < h[i].target <= i && h[h[i].target - 1].Message? && !Deleted(h, h[i].target, i)
  }

  predicate SameClientId(a: Entry, b: Entry) {
    a.Message? && b.Message? && a.sender == b.sender && a.clientId == b.clientId
  }

  predicate UniqueSurvivors(h: seq<Entry>) {
    forall i, j :: 0 <= i < j < |h| && SameClientId(h[i], h[j]) ==> Deleted(h, i + 1, j)
  }

  predicate HistoryOk(h: seq<Entry>) {
    RecordsOk(h) && UniqueSurvivors(h)
  }

  /** The stored message still carries what row e says about it, its text aside. */
  predicate Identity(m: Stored, e: Entry)
    requires e.Message?
  {
    && m.sender == e.sender && m.clientId == e.clientId && m.serverTs == e.serverTs
    && (e.payload.Text? ==> m.payload.Text? && m.payload.reply == e.payload.reply)
    && (!e.payload.Text? ==> m == Posted(e))
  }

  lemma DeletedLater(h: seq<Entry>, s: nat, m: nat, n: nat)
    requires m <= n <= |h| && Deleted(h, s, m)
    ensures Deleted(h, s, n)
  {}

  /** A row is not deleted before it exists. */
  lemma NotDeletedYet(h: seq<Entry>, s: nat, n: nat)
    requires RecordsOk(h) && n <= |h| && n <= s
    ensures !Deleted(h, s, n)
  {}

  lemma DeletedStep(h: seq<Entry>, s: nat, n: nat)
    requires 0 < n <= |h|
    ensures Deleted(h, s, n) <==> Deleted(h, s, n - 1) || h[n - 1] == Deletion(s)
  {}

  /** The fold holds exactly the posts after `joined` that no record has removed. */
  lemma {:induction false} FoldHolds(h: seq<Entry>, joined: nat, n: nat, s: nat)
    requires RecordsOk(h) && n <= |h|
    ensures s in Fold(h, joined, n) <==> joined < s <= n && IsPost(h[s - 1]) && !Deleted(h, s, n)
    ensures s in Fold(h, joined, n) ==> Identity(Fold(h, joined, n)[s], h[s - 1])
    decreases n
  {
    if joined < n {
      FoldHolds(h, joined, n - 1, s);
      DeletedStep(h, s, n);
      NotDeletedYet(h, n, n);
      var before := Fold(h, joined, n - 1);
      var hit := Hit(before, n, h[n - 1]);
      if hit.Some? {
        FoldHolds(h, joined, n - 1, hit.value);
      }
    }
  }

  /** The last row up to n that rewrote message s, or 0. */
  ghost function LastEdit(h: seq<Entry>, joined: nat, n: nat, s: nat): (k: nat)
    requires n <= |h|
    ensures k <= n
    ensures k != 0 ==> s < k
    decreases n
  {
    if n <= joined then 0
    else if Hit(Fold(h, joined, n - 1), n, h[n - 1]) == Some(s) then n
    else LastEdit(h, joined, n - 1, s)
  }

  /** Two undeleted messages with one client id are the same message, so an edit has one target at most. */
  lemma OneCandidate(h: seq<Entry>, n: nat, s: nat, t: nat)
    requires UniqueSurvivors(h) && 0 < s <= n <= |h| && 0 < t <= n && SameClientId(h[s - 1], h[t - 1])
    ensures s == t || Deleted(h, s, n) || Deleted(h, t, n)
  {
    if s < t {
      assert Deleted(h, s - 1 + 1, t - 1);
    } else if t < s {
      assert Deleted(h, t - 1 + 1, s - 1);
    }
  }
}
