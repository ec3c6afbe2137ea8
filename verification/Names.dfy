/**
 The name a device shows for a conversation, under the real interleavings.

 A rename counts only if its number is above that of the roster in force, so the name
 is not last-writer-wins even when the frames have caught up. A stale rename that is
 handled again wins if a membership event arrives before the newer rename comes round,
 and a rename whose row was deleted is missed by a device that reads the table later.
 What a device can show is where its name comes from: a row after which every naming
 row was deleted unread, or a row that was handled again with no roster above it.
 */
module Names {
  import opened Wrappers
  import opened History
  import opened Replication
  import opened Convergence
  import opened Roster
  import opened Runs
  import Screen

  // --- Rows that name, rows that set the roster --------------------------------------------

  predicate NameRow(h: seq<Entry>, r: nat) {
    0 < r <= |h| && IsName(h[r - 1])
  }

  predicate RosterRow(h: seq<Entry>, r: nat) {
    0 < r <= |h| && IsRoster(h[r - 1])
  }

  /** The newest naming row after `joined` up to n, or 0. */
  function NewestName(h: seq<Entry>, joined: nat, n: nat): (r: nat)
    requires n <= |h|
    ensures r != 0 ==> joined < r <= n && NameRow(h, r)
    ensures forall k: nat :: joined < k <= n && NameRow(h, k) ==> k <= r
    decreases n
  {
    if n <= joined then 0 else if NameRow(h, n) then n else NewestName(h, joined, n - 1)
  }

  /** The first x rows delete every naming row numbered a + 1 .. c. */
  ghost predicate NamesGone(h: seq<Entry>, a: nat, c: nat, x: nat)
    requires x <= |h|
  {
    forall j: nat :: a < j <= c && NameRow(h, j) ==> Deleted(h, j, x)
  }

  /** A device that reads the first s rows at once finds no roster that outranks row i. */
  ghost predicate Unranked(h: seq<Entry>, i: nat, s: nat)
    requires s <= |h|
  {
    forall r: nat :: i <= r <= s && RosterRow(h, r) ==> Deleted(h, r, s)
  }

  /** A device that read s rows and reads on when the log has l rows gets roster row r, and no name before it. */
  ghost predicate Ranks(h: seq<Entry>, s: nat, r: nat, l: nat) {
    s < r <= l <= |h| && RosterRow(h, r) && !Deleted(h, r, l) && NamesGone(h, s, r, l)
  }

  /** And that roster outranks every naming row it knows of. */
  ghost predicate Outranks(h: seq<Entry>, s: nat, r: nat, l: nat) {
    Ranks(h, s, r, l) && forall j: nat :: r < j <= l ==> !NameRow(h, j)
  }

  // --- A device with its record --------------------------------------------------------------

  datatype Device = Device(w: World, m: Meta)

  /** The rows a step handles, in order. */
  function HandledBy(w: World, a: Action): seq<nat> {
    match a
    case FetchPage =>
      if w.task.Idle? then []
      else
        Page(w.h, w.task.after, PAGE_LIMIT)
        + if w.task.frame.Some? && !HasMore(w.h, w.task.after, PAGE_LIMIT) then [w.task.frame.value] else []
    case Live =>
      if w.link.Offline? || w.link.next > Max(w.synced, w.joined) + 1 then [] else [w.link.next]
    case _ => []
  }

  lemma HandledRows(w: World, a: Action)
    requires Sane(w) && Enabled(w, a)
    ensures ValidRows(w.h, HandledBy(w, a))
  {
    if a.FetchPage? { PageIsPrefix(w.h, w.synced, PAGE_LIMIT); }
    hide RecordsOk, UniqueSurvivors, Page, HasMore, RowsFrom;
  }

  ghost function Acts(me: Account, d: Device, a: Action): Device
    requires Sane(d.w) && Enabled(d.w, a)
  {
    HandledRows(d.w, a);
    Device(Next(d.w, a), Delivered(me, d.m, d.w.h, HandledBy(d.w, a)))
  }

  /** No name or roster among the first n rows was deleted by a later record. */
  ghost predicate Settled(h: seq<Entry>, n: nat)
    requires n <= |h|
  {
    forall s: nat :: s <= n && (NameRow(h, s) || RosterRow(h, s)) && Deleted(h, s, |h|) ==> Deleted(h, s, n)
  }

  /**
   What a run may not do: give a backfill up between pages over deletions of names or rosters
   that came since; and, if it is to lose no name, lose a connection while a frame waits for
   its backfill or with a name still to come.
   */
  ghost predicate KeepsNames(w: World, a: Action, all: bool)
    requires Sane(w) && Enabled(w, a)
  {
    && (a.FailBackfill? ==> Settled(w.h, w.synced))
    && (all && a.Drop? ==> !Waiting(w) && forall r: nat :: w.link.next <= r <= w.synced ==> !NameRow(w.h, r))
  }

  ghost predicate Plays(me: Account, d: Device, run: seq<Action>, all: bool)
    decreases |run|
  {
    run == [] ||
    (Sane(d.w) && Enabled(d.w, run[0]) && KeepsNames(d.w, run[0], all) && Plays(me, Acts(me, d, run[0]), run[1..], all))
  }

  ghost function Played(me: Account, d: Device, run: seq<Action>, all: bool): Device
    requires Plays(me, d, run, all)
    decreases |run|
  {
    if run == [] then d else Played(me, Acts(me, d, run[0]), run[1..], all)
  }

  // --- What a device knows ------------------------------------------------------------------------

  /** The roster in force outranks every roster row up to n but those the first b rows delete. */
  ghost predicate RosterKnown(h: seq<Entry>, joined: nat, n: nat, b: nat, rank: nat)
    requires b <= |h|
  {
    && rank <= n && (joined < rank ==> RosterRow(h, rank))
    && forall r: nat :: joined < r <= n && rank < r && RosterRow(h, r) ==> Deleted(h, r, b)
  }

  /** The frame of the newest rename is still to come, and will find no roster above it or one that was read. */
  ghost predicate ToCome(h: seq<Entry>, joined: nat, n: nat, b: nat, p: nat, rank: nat, s: nat)
    requires n <= |h|
  {
    p <= NewestName(h, joined, n) && (rank < p || exists l: nat :: l <= b && Ranks(h, s, rank, l))
  }

  /** Some roster was read that outranks every naming row there was, and the later ones are gone. */
  ghost predicate Passed(h: seq<Entry>, n: nat, b: nat, s: nat)
    requires b <= |h|
  {
    exists r: nat, l: nat :: l <= n && Outranks(h, s, r, l) && NamesGone(h, l, n, b)
  }

  /** Row i was handled again when s rows had been read. */
  ghost predicate Stale(h: seq<Entry>, joined: nat, n: nat, b: nat, p: nat, rank: nat, i: nat, s: nat, all: bool)
    requires n <= b <= |h|
  {
    && i <= s <= n && Unranked(h, i, s) && NamesGone(h, s, n, b)
    && (all ==> ToCome(h, joined, n, b, p, rank, s) || Passed(h, n, b, s))
  }

  /** The name comes from row i, or from before the joining point if i is 0. */
  ghost predicate Source(h: seq<Entry>, joined: nat, n: nat, b: nat, p: nat, rank: nat, i: nat, all: bool)
    requires n <= b <= |h|
  {
    || NamesGone(h, Max(i, joined), n, b)
    || (i > 0 && exists s: nat :: Stale(h, joined, n, b, p, rank, i, s, all))
  }

  predicate NamedBy(h: seq<Entry>, joined: nat, n: nat, i: nat, name: string, name0: string) {
    if i == 0 then name == name0 else joined < i <= n && NameRow(h, i) && name == TitleOf(h[i - 1])
  }

  ghost predicate Known(h: seq<Entry>, joined: nat, n: nat, b: nat, p: nat, m: Meta, name0: string, all: bool)
    requires n <= b <= |h|
  {
    && RosterKnown(h, joined, n, b, m.rosterSeq)
    && exists i: nat :: NamedBy(h, joined, n, i, m.name, name0) && Source(h, joined, n, b, p, m.rosterSeq, i, all)
  }

  /** What a row does to roster number and name. */
  lemma RowActs(me: Account, m: Meta, at: nat, e: Entry)
    requires 0 < at
    ensures
      var u := MetaStep(me, m, at, e);
      && u.rosterSeq == (if IsRoster(e) && at > m.rosterSeq then at else m.rosterSeq)
      && u.name == (if IsName(e) && at > m.rosterSeq then TitleOf(e) else m.name)
  {}

  /** The same, said of rows. */
  lemma RowActsAt(me: Account, m: Meta, h: seq<Entry>, at: nat)
    requires 0 < at <= |h|
    ensures
      var u := MetaStep(me, m, at, h[at - 1]);
      && u.rosterSeq == (if RosterRow(h, at) && at > m.rosterSeq then at else m.rosterSeq)
      && (NameRow(h, at) && at > m.rosterSeq ==> u.name == TitleOf(h[at - 1]))
      && (!(NameRow(h, at) && at > m.rosterSeq) ==> u.name == m.name)
  {
    RowActs(me, m, at, h[at - 1]);
    hide MetaStep, IsName, IsRoster, TitleOf;
  }

  // --- A stale frame --------------------------------------------------------------------------------

  /** A rename that takes effect again. */
  lemma RenameAgain(h: seq<Entry>, joined: nat, n: nat, p: nat, rank: nat, rank': nat, all: bool)
    requires joined < p <= n <= |h| && NameRow(h, p) && rank < p && (rank' == rank || rank' == p)
    requires RosterKnown(h, joined, n, n, rank)
    ensures Source(h, joined, n, n, p + 1, rank', p, all)
  {
    hide NameRow, RosterRow, Deleted, NewestName;
    var q := p + 1;
    if p < NewestName(h, joined, n) {
      assert Stale(h, joined, n, n, q, rank', p, n, all);
    }
  }

  /** The frame of the newest rename comes and is outranked: by a roster that was read since. */
  lemma RenamePassed(h: seq<Entry>, joined: nat, n: nat, p: nat, rank: nat, s: nat)
    requires p <= n <= |h| && p == NewestName(h, joined, n) && p <= rank <= n && joined <= s && p != 0
    requires ToCome(h, joined, n, n, p, rank, s)
    ensures Passed(h, n, n, s)
  {
    hide NameRow, RosterRow, Deleted, NewestName;
    var l: nat :| l <= n && Ranks(h, s, rank, l);
    assert Outranks(h, s, rank, l);
    assert NamesGone(h, l, n, n);
  }

  /** Any other stale frame. */
  lemma SourceAgain(h: seq<Entry>, joined: nat, n: nat, p: nat, rank: nat, rank': nat, i: nat, all: bool)
    requires joined < p <= n <= |h| && rank' <= n && (i > 0 ==> joined < i)
    requires rank' == rank || (rank < p && rank' == p)
    requires NameRow(h, p) ==> p <= rank
    requires Source(h, joined, n, n, p, rank, i, all)
    ensures Source(h, joined, n, n, p + 1, rank', i, all)
  {
    hide NameRow, RosterRow, Deleted, NewestName, NamesGone, Unranked, Passed, Ranks;
    var q := p + 1;
    if !NamesGone(h, Max(i, joined), n, n) {
      var s: nat :| Stale(h, joined, n, n, p, rank, i, s, all);
      if all && !Passed(h, n, n, s) && p == NewestName(h, joined, n) {
        assert NameRow(h, p) by { NewestIsName(h, joined, n); }
        RenamePassed(h, joined, n, p, rank, s);
      }
      assert Stale(h, joined, n, n, q, rank', i, s, all);
    }
  }

  lemma NewestIsName(h: seq<Entry>, joined: nat, n: nat)
    requires n <= |h| && NewestName(h, joined, n) != 0
    ensures NameRow(h, NewestName(h, joined, n))
  {}

  lemma KnownReplay(me: Account, h: seq<Entry>, joined: nat, n: nat, p: nat, m: Meta, name0: string, all: bool)
    requires joined < p <= n <= |h| && Known(h, joined, n, n, p, m, name0, all)
    ensures Known(h, joined, n, n, p + 1, MetaStep(me, m, p, h[p - 1]), name0, all)
  {
    var u, q := MetaStep(me, m, p, h[p - 1]), p + 1;
    RowActsAt(me, m, h, p);
    hide MetaStep, NameRow, RosterRow, TitleOf, Source, Deleted;
    assert RosterKnown(h, joined, n, n, u.rosterSeq);
    if NameRow(h, p) && p > m.rosterSeq {
      RenameAgain(h, joined, n, p, m.rosterSeq, u.rosterSeq, all);
      assert NamedBy(h, joined, n, p, u.name, name0);
    } else {
      var i: nat :| NamedBy(h, joined, n, i, m.name, name0) && Source(h, joined, n, n, p, m.rosterSeq, i, all);
      SourceAgain(h, joined, n, p, m.rosterSeq, u.rosterSeq, i, all);
      assert NamedBy(h, joined, n, i, u.name, name0);
    }
  }

  // --- A new row ------------------------------------------------------------------------------------------

  /** The rows that were skipped before row k name nothing that is still there. */
  lemma GoneOn(h: seq<Entry>, a: nat, n: nat, b: nat, k: nat, b': nat)
    requires n < k <= b' && b <= b' <= |h| && NamesGone(h, a, n, b) && Skipped(h, n, k, b') && !NameRow(h, k)
    ensures NamesGone(h, a, k, b')
  {
    hide NameRow;
    forall j: nat | a < j <= k && NameRow(h, j)
      ensures Deleted(h, j, b')
    {
      if j <= n { DeletedLater(h, j, b, b'); }
      hide Deleted;
    }
  }

  lemma NewestGrows(h: seq<Entry>, joined: nat, n: nat, k: nat)
    requires n <= k <= |h|
    ensures NewestName(h, joined, n) <= NewestName(h, joined, k)
  {
    if NewestName(h, joined, n) != 0 { NewestIsName(h, joined, n); }
    hide NameRow;
  }

  /** The source stays what it was when the row names nothing. */
  lemma SourceOn(h: seq<Entry>, joined: nat, n: nat, b: nat, k: nat, b': nat, p: nat, rank: nat, rank': nat, i: nat,
                 all: bool)
    requires rank <= n <= b <= b' <= |h| && n < k <= b' && 0 < p <= n + 1 && Skipped(h, n, k, b') && !NameRow(h, k)
    requires rank' == rank || (rank' == k && RosterRow(h, k) && !Deleted(h, k, b'))
    requires Source(h, joined, n, b, p, rank, i, all)
    ensures Source(h, joined, k, b', NextPending(n, p, k), rank', i, all)
  {
    var q := NextPending(n, p, k);
    if NamesGone(h, Max(i, joined), n, b) {
      GoneOn(h, Max(i, joined), n, b, k, b');
    } else {
      var s: nat :| Stale(h, joined, n, b, p, rank, i, s, all);
      GoneOn(h, s, n, b, k, b');
      NewestGrows(h, joined, n, k);
      hide NameRow, RosterRow, Deleted, NewestName, NamesGone, Unranked, Skipped;
      if all && ToCome(h, joined, n, b, p, rank, s) {
        ComesOn(h, joined, n, b, k, b', p, rank, rank', s);
      } else if all {
        PassedOn(h, n, b, k, b', s);
      }
      assert Stale(h, joined, k, b', q, rank', i, s, all);
    }
  }

  lemma ComesOn(h: seq<Entry>, joined: nat, n: nat, b: nat, k: nat, b': nat, p: nat, rank: nat, rank': nat, s: nat)
    requires rank <= n <= b <= b' <= |h| && n < k <= b' && s <= n && ToCome(h, joined, n, b, p, rank, s)
    requires rank' == rank || (rank' == k && RosterRow(h, k) && !Deleted(h, k, b') && NamesGone(h, s, k, b'))
    ensures ToCome(h, joined, k, b', NextPending(n, p, k), rank', s)
  {
    NewestGrows(h, joined, n, k);
    hide NameRow, RosterRow, Deleted, NamesGone;
    if rank' == k {
      assert Ranks(h, s, k, b');
    }
  }

  lemma PassedOn(h: seq<Entry>, n: nat, b: nat, k: nat, b': nat, s: nat)
    requires n <= b <= b' <= |h| && n < k <= b' && Skipped(h, n, k, b') && !NameRow(h, k) && Passed(h, n, b, s)
    ensures Passed(h, k, b', s)
  {
    var r: nat, l: nat :| l <= n && Outranks(h, s, r, l) && NamesGone(h, l, n, b);
    GoneOn(h, l, n, b, k, b');
    hide Outranks, NamesGone;
  }

  /** The next new row. */
  lemma KnownAdvance(me: Account, h: seq<Entry>, joined: nat, n: nat, b: nat, k: nat, b': nat, p: nat, m: Meta,
                     name0: string, all: bool)
    requires joined <= n <= b <= b' <= |h| && n < k <= b' && 0 < p <= n + 1
    requires Skipped(h, n, k, b') && !Deleted(h, k, b') && Known(h, joined, n, b, p, m, name0, all)
    ensures Known(h, joined, k, b', NextPending(n, p, k), MetaStep(me, m, k, h[k - 1]), name0, all)
  {
    var u, q := MetaStep(me, m, k, h[k - 1]), NextPending(n, p, k);
    RowActsAt(me, m, h, k);
    RosterOn(h, joined, n, b, k, b', m.rosterSeq);
    hide MetaStep, NameRow, RosterRow, TitleOf, Source, Deleted, Skipped, RosterKnown;
    assert m.rosterSeq <= n by { RankIsRead(h, joined, n, b, m.rosterSeq); }
    if NameRow(h, k) {
      NewestIsSource(h, joined, k, b', q, u.rosterSeq, all);
      assert NamedBy(h, joined, k, k, u.name, name0);
    } else {
      var i: nat :| NamedBy(h, joined, n, i, m.name, name0) && Source(h, joined, n, b, p, m.rosterSeq, i, all);
      SourceOn(h, joined, n, b, k, b', p, m.rosterSeq, u.rosterSeq, i, all);
      assert NamedBy(h, joined, k, i, u.name, name0);
    }
  }

  lemma RankIsRead(h: seq<Entry>, joined: nat, n: nat, b: nat, rank: nat)
    requires b <= |h| && RosterKnown(h, joined, n, b, rank)
    ensures rank <= n
  {}

  lemma NewestIsSource(h: seq<Entry>, joined: nat, k: nat, b: nat, p: nat, rank: nat, all: bool)
    requires joined < k <= b <= |h|
    ensures Source(h, joined, k, b, p, rank, k, all)
  {
    assert NamesGone(h, k, k, b);
  }

  lemma RosterOn(h: seq<Entry>, joined: nat, n: nat, b: nat, k: nat, b': nat, rank: nat)
    requires b <= b' <= |h| && joined <= n < k <= b' && Skipped(h, n, k, b') && RosterKnown(h, joined, n, b, rank)
    ensures RosterKnown(h, joined, k, b', if RosterRow(h, k) then k else rank)
  {
    hide RosterRow;
    forall r: nat | joined < r <= n && rank < r && RosterRow(h, r)
      ensures Deleted(h, r, b')
    {
      DeletedLater(h, r, b, b');
    }
    hide Deleted;
  }

  /** The next surviving rows, as many as there may be. */
  lemma {:induction false} KnownRows(me: Account, h: seq<Entry>, joined: nat, n: nat, p: nat, rows: seq<nat>, m: Meta,
                                     name0: string, all: bool)
    requires joined <= n <= |h| && 0 < p <= n + 1
    requires rows <= RowsFrom(h, n + 1) && ValidRows(h, rows) && Known(h, joined, n, |h|, p, m, name0, all)
    ensures n <= LastOr(rows, n) <= |h|
    ensures
      var last := LastOr(rows, n);
      Known(h, joined, last, |h|, NextPending(n, p, last), Delivered(me, m, h, rows), name0, all)
    decreases |rows|
  {
    hide Known, Skipped, RowsFrom, MetaStep, Deleted;
    if rows != [] {
      var r, first := rows[0], [rows[0]];
      PrefixTail(rows, RowsFrom(h, n + 1));
      RowsHead(h, n + 1);
      RowsSurvive(h, n + 1);
      KnownAdvance(me, h, joined, n, |h|, r, |h|, p, m, name0, all);
      var next := MetaStep(me, m, r, h[r - 1]);
      assert Delivered(me, m, h, first) == next by { assert first[..0] == []; }
      KnownRows(me, h, joined, r, NextPending(n, p, r), rows[1..], next, name0, all);
      DeliveredJoins(me, m, h, first, rows[1..]);
      assert first + rows[1..] == rows;
    }
  }

  // --- What else changes -----------------------------------------------------------------------------------

  /** The log grows. */
  lemma KnownGrows(h: seq<Entry>, g: seq<Entry>, joined: nat, n: nat, b: nat, p: nat, m: Meta, name0: string, all: bool)
    requires h <= g && n <= b <= |h| && Known(h, joined, n, b, p, m, name0, all)
    ensures Known(g, joined, n, b, p, m, name0, all)
  {
    GrowsRows(h, g);
    SameNewestName(h, g, joined, n);
    hide TitleOf, NameRow, RosterRow, Deleted, NewestName;
    var i: nat :| NamedBy(h, joined, n, i, m.name, name0) && Source(h, joined, n, b, p, m.rosterSeq, i, all);
    assert NamedBy(g, joined, n, i, m.name, name0);
    assert RosterKnown(g, joined, n, b, m.rosterSeq);
    if NamesGone(h, Max(i, joined), n, b) {
      assert NamesGone(g, Max(i, joined), n, b);
    } else {
      var s: nat :| Stale(h, joined, n, b, p, m.rosterSeq, i, s, all);
      StaleGrows(h, g, joined, n, b, p, m.rosterSeq, i, s, all);
    }
    assert Source(g, joined, n, b, p, m.rosterSeq, i, all);
  }

  ghost predicate SameRows(h: seq<Entry>, g: seq<Entry>) {
    && |h| <= |g|
    && (forall r: nat :: r <= |h| ==> (NameRow(g, r) <==> NameRow(h, r)))
    && (forall r: nat :: r <= |h| ==> (RosterRow(g, r) <==> RosterRow(h, r)))
    && (forall r: nat, x: nat :: x <= |h| ==> (Deleted(g, r, x) <==> Deleted(h, r, x)))
  }

  lemma GrowsRows(h: seq<Entry>, g: seq<Entry>)
    requires h <= g
    ensures SameRows(h, g)
  {
    forall r: nat, x: nat | x <= |h|
      ensures Deleted(g, r, x) <==> Deleted(h, r, x)
    {
      LongerSame(h, g, 0, x, r);
    }
  }

  lemma RanksGrows(h: seq<Entry>, g: seq<Entry>, s: nat, r: nat, l: nat)
    requires SameRows(h, g) && Ranks(h, s, r, l)
    ensures Ranks(g, s, r, l) && (Outranks(h, s, r, l) ==> Outranks(g, s, r, l))
  {
    hide NameRow, RosterRow, Deleted;
  }

  lemma StaleGrows(h: seq<Entry>, g: seq<Entry>, joined: nat, n: nat, b: nat, p: nat, rank: nat, i: nat, s: nat,
                   all: bool)
    requires SameRows(h, g) && n <= b <= |h| && NewestName(g, joined, n) == NewestName(h, joined, n)
    requires Stale(h, joined, n, b, p, rank, i, s, all)
    ensures Stale(g, joined, n, b, p, rank, i, s, all)
  {
    hide NameRow, RosterRow, Deleted, NewestName;
    assert Unranked(g, i, s) && NamesGone(g, s, n, b);
    if all && ToCome(h, joined, n, b, p, rank, s) {
      if p <= rank {
        var l: nat :| l <= b && Ranks(h, s, rank, l);
        RanksGrows(h, g, s, rank, l);
      }
      assert ToCome(g, joined, n, b, p, rank, s);
    } else if all {
      var r: nat, l: nat :| l <= n && Outranks(h, s, r, l) && NamesGone(h, l, n, b);
      RanksGrows(h, g, s, r, l);
      assert NamesGone(g, l, n, b);
    }
  }

  lemma {:induction false} SameNewestName(h: seq<Entry>, g: seq<Entry>, joined: nat, n: nat)
    requires h <= g && n <= |h|
    ensures NewestName(g, joined, n) == NewestName(h, joined, n)
    decreases n
  {
    if joined < n { SameNewestName(h, g, joined, n - 1); }
  }

  /** Frames may be handled again; they may be lost if there is no name in them, or names may be lost. */
  lemma KnownWaits(h: seq<Entry>, joined: nat, n: nat, b: nat, p: nat, q: nat, m: Meta, name0: string, all: bool)
    requires n <= b <= |h| && Known(h, joined, n, b, p, m, name0, all)
    requires q == p || p == n + 1 || !all || (q == n + 1 && forall r: nat :: p <= r <= n ==> !NameRow(h, r))
    ensures Known(h, joined, n, b, q, m, name0, all)
  {
    hide TitleOf, RosterRow, Deleted;
    var i: nat :| NamedBy(h, joined, n, i, m.name, name0) && Source(h, joined, n, b, p, m.rosterSeq, i, all);
    if !NamesGone(h, Max(i, joined), n, b) {
      var s: nat :| Stale(h, joined, n, b, p, m.rosterSeq, i, s, all);
      if all && q != p && ToCome(h, joined, n, b, p, m.rosterSeq, s) { NothingToCome(h, joined, n, p); }
      hide NameRow, NewestName, NamesGone, Passed;
      assert Stale(h, joined, n, b, q, m.rosterSeq, i, s, all);
    }
    assert Source(h, joined, n, b, q, m.rosterSeq, i, all);
  }

  lemma NothingToCome(h: seq<Entry>, joined: nat, n: nat, p: nat)
    requires n <= |h| && 0 < p && (p == n + 1 || forall r: nat :: p <= r <= n ==> !NameRow(h, r))
    ensures NewestName(h, joined, n) < p
  {
    hide NameRow;
  }

  /** More of the log counts. */
  lemma KnownBound(h: seq<Entry>, joined: nat, n: nat, b: nat, b': nat, p: nat, m: Meta, name0: string, all: bool)
    requires n <= b <= b' <= |h| && Known(h, joined, n, b, p, m, name0, all)
    ensures Known(h, joined, n, b', p, m, name0, all)
  {
    forall r: nat | Deleted(h, r, b)
      ensures Deleted(h, r, b')
    {
      DeletedLater(h, r, b, b');
    }
    hide TitleOf, NameRow, RosterRow, Deleted, NewestName, Unranked, Ranks;
    var i: nat :| NamedBy(h, joined, n, i, m.name, name0) && Source(h, joined, n, b, p, m.rosterSeq, i, all);
    if !NamesGone(h, Max(i, joined), n, b) {
      var s: nat :| Stale(h, joined, n, b, p, m.rosterSeq, i, s, all);
      if all && Passed(h, n, b, s) {
        var r: nat, l: nat :| l <= n && Outranks(h, s, r, l) && NamesGone(h, l, n, b);
        assert NamesGone(h, l, n, b');
      }
      assert Stale(h, joined, n, b', p, m.rosterSeq, i, s, all);
    }
    assert Source(h, joined, n, b', p, m.rosterSeq, i, all);
  }

  /** Where no later record matters, a backfill may stop. */
  lemma KnownSettles(h: seq<Entry>, joined: nat, n: nat, p: nat, m: Meta, name0: string, all: bool)
    requires n <= |h| && Settled(h, n) && Known(h, joined, n, |h|, p, m, name0, all)
    ensures Known(h, joined, n, n, p, m, name0, all)
  {
    hide TitleOf, NameRow, RosterRow, Deleted, NewestName, Unranked, Ranks, Outranks;
    var i: nat :| NamedBy(h, joined, n, i, m.name, name0) && Source(h, joined, n, |h|, p, m.rosterSeq, i, all);
    if !NamesGone(h, Max(i, joined), n, |h|) {
      var s: nat :| Stale(h, joined, n, |h|, p, m.rosterSeq, i, s, all);
      if all && ToCome(h, joined, n, |h|, p, m.rosterSeq, s) {
        ComesSettled(h, joined, n, p, m.rosterSeq, s);
      } else if all {
        var r: nat, l: nat :| l <= n && Outranks(h, s, r, l) && NamesGone(h, l, n, |h|);
        assert NamesGone(h, l, n, n);
      }
      assert Stale(h, joined, n, n, p, m.rosterSeq, i, s, all);
    }
    assert Source(h, joined, n, n, p, m.rosterSeq, i, all);
  }

  lemma ComesSettled(h: seq<Entry>, joined: nat, n: nat, p: nat, rank: nat, s: nat)
    requires rank <= n <= |h| && Settled(h, n) && ToCome(h, joined, n, |h|, p, rank, s)
    ensures ToCome(h, joined, n, n, p, rank, s)
  {
    hide NameRow, RosterRow, NewestName, Deleted;
    if rank >= p {
      var l: nat :| l <= |h| && Ranks(h, s, rank, l);
      if l > n { RanksSettled(h, n, s, rank, l); }
    }
  }

  lemma RanksSettled(h: seq<Entry>, n: nat, s: nat, r: nat, l: nat)
    requires r <= n < l <= |h| && Settled(h, n) && Ranks(h, s, r, l)
    ensures Ranks(h, s, r, n)
  {
    assert !Deleted(h, r, n) by { if Deleted(h, r, n) { DeletedLater(h, r, n, l); } }
    forall j: nat | s < j <= r && NameRow(h, j)
      ensures Deleted(h, j, n)
    {
      DeletedLater(h, j, l, |h|);
    }
    hide NameRow, RosterRow, Deleted;
  }

  // --- Every step ------------------------------------------------------------------------------

  /** A backfill reads the table as the whole log left it. */
  function Bound(w: World): nat {
    if w.task.Backfill? then |w.h| else w.synced
  }

  ghost predicate KnownAt(d: Device, name0: string, all: bool) {
    && Sane(d.w)
    && (all && Waiting(d.w) ==> d.w.link == Online(d.w.task.frame.value + 1))
    && Known(d.w.h, d.w.joined, d.w.synced, Bound(d.w), Pending(d.w), d.m, name0, all)
  }

  lemma KnownIsSane(d: Device, name0: string, all: bool)
    requires KnownAt(d, name0, all)
    ensures Sane(d.w)
  {}

  lemma KnownPage(me: Account, d: Device, name0: string, all: bool)
    requires KnownAt(d, name0, all) && d.w.task.Backfill?
    ensures
      var rows, w := Page(d.w.h, d.w.task.after, PAGE_LIMIT), AfterPage(d.w);
      && ValidRows(w.h, rows) && w.h == d.w.h && w.synced <= |w.h|
      && Known(w.h, w.joined, w.synced, |w.h|, Pending(w), Delivered(me, d.m, w.h, rows), name0, all)
      && (!HasMore(w.h, d.w.task.after, PAGE_LIMIT) ==> w.synced == |w.h|)
  {
    hide RecordsOk, UniqueSurvivors, Known, RowsFrom, Page, HasMore, Delivered, ApplyRows;
    var rows, p := Page(d.w.h, d.w.task.after, PAGE_LIMIT), Pending(d.w);
    PageIsPrefix(d.w.h, d.w.synced, PAGE_LIMIT);
    SanePage(d.w);
    KnownRows(me, d.w.h, d.w.joined, d.w.synced, p, rows, d.m, name0, all);
    var w := AfterPage(d.w);
    if !HasMore(d.w.h, d.w.synced, PAGE_LIMIT) { LastPageEnds(d.w.h, d.w.synced, PAGE_LIMIT); }
    KnownWaits(w.h, w.joined, w.synced, |w.h|, NextPending(d.w.synced, p, w.synced), Pending(w),
               Delivered(me, d.m, w.h, rows), name0, all);
  }

  /** What a page read does, case by case. */
  lemma FetchActs(me: Account, d: Device)
    requires Sane(d.w) && d.w.task.Backfill? && ValidRows(d.w.h, Page(d.w.h, d.w.task.after, PAGE_LIMIT))
    ensures
      var rows, w, v := Page(d.w.h, d.w.task.after, PAGE_LIMIT), AfterPage(d.w), Acts(me, d, FetchPage);
      var read := Delivered(me, d.m, d.w.h, rows);
      && w.h == d.w.h
      && (HasMore(d.w.h, d.w.task.after, PAGE_LIMIT) ==> v == Device(w, read))
      && (!HasMore(d.w.h, d.w.task.after, PAGE_LIMIT) ==>
            match d.w.task.frame
            case None => v == Device(w.(task := Idle), read)
            case Some(f) => v == Device(HandleFrame(w, f).(task := Idle), MetaStep(me, read, f, w.h[f - 1])))
  {
    hide RecordsOk, UniqueSurvivors, Page, HasMore, MetaStep, Screen.StepView, ApplyRows;
    var rows := Page(d.w.h, d.w.task.after, PAGE_LIMIT);
    assert rows + [] == rows;
    if d.w.task.frame.Some? {
      var read := rows + [d.w.task.frame.value];
      assert read[..|read| - 1] == rows;
    }
  }

  /** The frame that waited for the backfill. */
  lemma KnownWaited(me: Account, w: World, f: nat, m: Meta, name0: string, all: bool)
    requires KnownAt(Device(w, m), name0, all) && Waiting(w) && w.task.frame.value == f && w.synced == |w.h|
    requires Sane(HandleFrame(w, f).(task := Idle))
    ensures KnownAt(Device(HandleFrame(w, f).(task := Idle), MetaStep(me, m, f, w.h[f - 1])), name0, all)
  {
    hide RecordsOk, UniqueSurvivors, Known, MetaStep, HandleFrame;
    var u, v := HandleFrame(w, f).(task := Idle), MetaStep(me, m, f, w.h[f - 1]);
    KnownWaits(w.h, w.joined, w.synced, |w.h|, Pending(w), f, m, name0, all);
    KnownReplay(me, w.h, w.joined, w.synced, f, m, name0, all);
    HandledFrame(w, f);
    KnownWaits(w.h, w.joined, w.synced, w.synced, f + 1, Pending(u), v, name0, all);
  }

  /** No frame waited for the backfill. */
  lemma KnownDone(w: World, m: Meta, name0: string, all: bool)
    requires KnownAt(Device(w, m), name0, all) && w.task.Backfill? && w.task.frame.None? && w.synced == |w.h|
    ensures KnownAt(Device(w.(task := Idle), m), name0, all)
  {
    hide RecordsOk, UniqueSurvivors, Known;
  }

  lemma KnownRead(me: Account, d: Device, name0: string, all: bool)
    requires KnownAt(d, name0, all) && d.w.task.Backfill?
    ensures
      var rows, w := Page(d.w.h, d.w.task.after, PAGE_LIMIT), AfterPage(d.w);
      ValidRows(d.w.h, rows) && KnownAt(Device(w, Delivered(me, d.m, d.w.h, rows)), name0, all)
  {
    KnownPage(me, d, name0, all);
    SanePage(d.w);
    hide RecordsOk, UniqueSurvivors, Known, Page, AfterPage, Delivered;
  }

  lemma KnownFetch(me: Account, d: Device, name0: string, all: bool)
    requires KnownAt(d, name0, all) && d.w.task.Backfill?
    ensures KnownAt(Acts(me, d, FetchPage), name0, all)
  {
    var w := AfterPage(d.w);
    KnownPage(me, d, name0, all);
    KnownRead(me, d, name0, all);
    FetchActs(me, d);
    SanePage(d.w);
    SaneStays(d.w, FetchPage);
    ActsIsNext(me, d, FetchPage);
    var rows := Page(d.w.h, d.w.task.after, PAGE_LIMIT);
    var read := Delivered(me, d.m, d.w.h, rows);
    hide *;
    if HasMore(d.w.h, d.w.task.after, PAGE_LIMIT) {
    } else if d.w.task.frame.None? {
      KnownDone(w, read, name0, all);
    } else {
      KnownWaited(me, w, d.w.task.frame.value, read, name0, all);
    }
  }

  lemma ActsIsNext(me: Account, d: Device, a: Action)
    requires Sane(d.w) && Enabled(d.w, a)
    ensures Acts(me, d, a).w == Next(d.w, a)
  {
    hide Sane, Enabled, Next, Delivered, HandledBy;
  }

  /** What a frame does, case by case. */
  lemma LiveActs(me: Account, d: Device)
    requires Sane(d.w) && Enabled(d.w, Live)
    ensures d.w.task.Idle? && d.w.link.Online? && 0 < d.w.link.next <= |d.w.h|
    ensures
      var w, f, v := d.w, d.w.link.next, Acts(me, d, Live);
      if f > w.synced + 1
      then v == Device(w.(link := Online(f + 1), task := Backfill(w.synced, Some(f))), d.m)
      else v == Device(HandleFrame(w, f).(link := Online(f + 1)), MetaStep(me, d.m, f, w.h[f - 1]))
  {
    hide RecordsOk, UniqueSurvivors, MetaStep, Screen.StepView;
    var f := d.w.link.next;
    assert [f][..0] == [];
    assert Delivered(me, d.m, d.w.h, [f]) == MetaStep(me, Delivered(me, d.m, d.w.h, []), f, d.w.h[f - 1]);
  }

  lemma NothingSkipped(h: seq<Entry>, n: nat, b: nat)
    requires b <= |h|
    ensures Skipped(h, n, n + 1, b)
  {}

  lemma KnownAfterFrame(w: World, f: nat, m: Meta, name0: string, all: bool)
    requires Sane(w) && w.task.Idle? && w.link == Online(f) && f <= |w.h| && f <= w.synced + 1
    requires Sane(HandleFrame(w, f).(link := Online(f + 1)))
    requires Known(w.h, w.joined, Max(w.synced, f), Max(w.synced, f), f + 1, m, name0, all)
    ensures KnownAt(Device(HandleFrame(w, f).(link := Online(f + 1)), m), name0, all)
  {
    HandledFrame(w, f);
    hide RecordsOk, UniqueSurvivors, Known, HandleFrame;
  }

  /** A frame that leaves no gap. */
  lemma KnownFrame(me: Account, w: World, f: nat, m: Meta, name0: string, all: bool)
    requires KnownAt(Device(w, m), name0, all) && w.task.Idle? && w.link == Online(f) && f <= |w.h| && f <= w.synced + 1
    requires Sane(HandleFrame(w, f).(link := Online(f + 1)))
    ensures KnownAt(Device(HandleFrame(w, f).(link := Online(f + 1)), MetaStep(me, m, f, w.h[f - 1])), name0, all)
  {
    hide UniqueSurvivors, Known, MetaStep, HandleFrame, Skipped, Deleted;
    assert Known(w.h, w.joined, w.synced, w.synced, f, m, name0, all);
    if f <= w.synced {
      KnownReplay(me, w.h, w.joined, w.synced, f, m, name0, all);
    } else {
      NothingSkipped(w.h, w.synced, f);
      NotDeletedYet(w.h, f, f);
      KnownAdvance(me, w.h, w.joined, w.synced, w.synced, f, f, f, m, name0, all);
    }
    hide KnownAt;
    KnownAfterFrame(w, f, MetaStep(me, m, f, w.h[f - 1]), name0, all);
  }

  /** A frame that leaves a gap waits. */
  lemma KnownGap(w: World, f: nat, m: Meta, name0: string, all: bool)
    requires KnownAt(Device(w, m), name0, all) && w.task.Idle? && w.link == Online(f) && f <= |w.h| && f > w.synced + 1
    ensures KnownAt(Device(w.(link := Online(f + 1), task := Backfill(w.synced, Some(f))), m), name0, all)
  {
    hide RecordsOk, UniqueSurvivors, Known;
    KnownBound(w.h, w.joined, w.synced, w.synced, |w.h|, Pending(w), m, name0, all);
  }

  lemma KnownLive(me: Account, d: Device, name0: string, all: bool)
    requires KnownAt(d, name0, all) && Enabled(d.w, Live)
    ensures KnownAt(Acts(me, d, Live), name0, all)
  {
    hide *;
    KnownIsSane(d, name0, all);
    SaneStays(d.w, Live);
    ActsIsNext(me, d, Live);
    LiveActs(me, d);
    var f := d.w.link.next;
    if f <= d.w.synced + 1 {
      KnownFrame(me, d.w, f, d.m, name0, all);
    } else {
      KnownGap(d.w, f, d.m, name0, all);
    }
  }

  lemma KnownAppend(w: World, e: Entry, m: Meta, name0: string, all: bool)
    requires KnownAt(Device(w, m), name0, all) && Enabled(w, Append(e))
    ensures KnownAt(Device(Next(w, Append(e)), m), name0, all)
  {
    hide RecordsOk, UniqueSurvivors, Known;
    var g := w.h + [e];
    assert w.h <= g;
    SaneStays(w, Append(e));
    KnownGrows(w.h, g, w.joined, w.synced, Bound(w), Pending(w), m, name0, all);
    KnownBound(g, w.joined, w.synced, Bound(w), Bound(w.(h := g)), Pending(w), m, name0, all);
  }

  /** The steps that handle no row. */
  lemma KnownOther(w: World, a: Action, m: Meta, name0: string, all: bool)
    requires KnownAt(Device(w, m), name0, all) && Enabled(w, a) && KeepsNames(w, a, all)
    requires !a.FetchPage? && !a.Live? && !a.Append?
    ensures KnownAt(Device(Next(w, a), m), name0, all)
  {
    SaneStays(w, a);
    hide RecordsOk, UniqueSurvivors, Known, NameRow, RosterRow, Deleted, Screen.Without;
    var v := Next(w, a);
    if a.StartBackfill? {
      KnownBound(w.h, w.joined, w.synced, w.synced, |w.h|, Pending(w), m, name0, all);
    } else if a.FailBackfill? {
      KnownSettles(w.h, w.joined, w.synced, Pending(w), m, name0, all);
    }
    KnownWaits(w.h, w.joined, w.synced, Bound(v), Pending(w), Pending(v), m, name0, all);
  }

  lemma KnownStep(me: Account, d: Device, a: Action, name0: string, all: bool)
    requires KnownAt(d, name0, all) && Enabled(d.w, a) && KeepsNames(d.w, a, all)
    ensures KnownAt(Acts(me, d, a), name0, all)
  {
    if a.FetchPage? {
      KnownFetch(me, d, name0, all);
    } else if a.Live? {
      KnownLive(me, d, name0, all);
    } else {
      ActsIsNext(me, d, a);
      assert Acts(me, d, a).m == d.m;
      hide Known, Acts, KnownAt, Next, KeepsNames;
      if a.Append? {
        KnownAppend(d.w, a.e, d.m, name0, all);
      } else {
        KnownOther(d.w, a, d.m, name0, all);
      }
    }
  }

  lemma {:induction false} KnownRun(me: Account, d: Device, run: seq<Action>, name0: string, all: bool)
    requires KnownAt(d, name0, all) && Plays(me, d, run, all)
    ensures KnownAt(Played(me, d, run, all), name0, all)
    decreases |run|
  {
    hide KnownAt, Acts, Enabled, KeepsNames;
    if run != [] {
      KnownStep(me, d, run[0], name0, all);
      KnownRun(me, Acts(me, d, run[0]), run[1..], name0, all);
    }
  }
}
