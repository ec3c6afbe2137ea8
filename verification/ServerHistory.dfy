/**
 Joins the server's tables to the histories devices fold: in a run without a
 purge the log of a conversation is a history in the sense of module History,
 and the table lists exactly its surviving rows.
 */
module ServerHistory {
  import opened Wrappers
  import opened ServerLog
  import opened ServerRuns
  import H = History
  import Compaction
  import Convergence
  import Screen

  /** How a device decodes envelopes; any fixed function of the row will do. */
  type Decoder = Row -> H.Payload

  function ToEntry(dec: Decoder, row: Row): H.Entry {
    match row.deleted
    case Some(s) => H.Deletion(s)
    case None => H.Message(row.sender, row.clientId, row.serverTs, dec(row))
  }

  function Decoded(dec: Decoder, rows: seq<Row>): seq<H.Entry> {
    seq(|rows|, i requires 0 <= i < |rows| => ToEntry(dec, rows[i]))
  }

  /** The log of c is a history, and a row is missing from the table exactly when a record removes it. */
  ghost predicate LogIsHistory(dec: Decoder, t: Tables, c: ConvId)
    requires c in t.log
  {
    var h := Decoded(dec, t.log[c]);
    && H.HistoryOk(h)
    && forall s: nat :: 0 < s <= |h| ==> ((c, s) !in t.messages <==> H.Deleted(h, s, |h|))
  }

  ghost predicate LogsAreHistories(dec: Decoder, t: Tables) {
    forall c :: c in t.log ==> LogIsHistory(dec, t, c)
  }

  lemma RecordExtends(h: seq<H.Entry>, s: nat)
    requires H.HistoryOk(h) && 0 < s <= |h| && h[s - 1].Message? && !H.Deleted(h, s, |h|)
    ensures H.HistoryOk(h + [H.Deletion(s)])
  {
    ExtendedDeletions(h, H.Deletion(s));
    var g := h + [H.Deletion(s)];
    forall i | 0 <= i < |g| && g[i].Deletion?
      ensures 0 < g[i].target <= i && g[g[i].target - 1].Message? && !H.Deleted(g, g[i].target, i)
    {
      if i < |h| { assert h[i].Deletion?; }
    }
    forall i, j | 0 <= i < j < |g| && H.SameClientId(g[i], g[j])
      ensures H.Deleted(g, i + 1, j)
    {
      assert H.Deleted(h, i + 1, j);
    }
  }

  lemma MessageExtends(h: seq<H.Entry>, e: H.Entry)
    requires H.HistoryOk(h) && e.Message?
    requires forall i :: 0 <= i < |h| && H.SameClientId(h[i], e) ==> H.Deleted(h, i + 1, |h|)
    ensures H.HistoryOk(h + [e])
  {
    ExtendedDeletions(h, e);
    var g := h + [e];
    forall i | 0 <= i < |g| && g[i].Deletion?
      ensures 0 < g[i].target <= i && g[g[i].target - 1].Message? && !H.Deleted(g, g[i].target, i)
    {
      assert h[i].Deletion?;
    }
    forall i, j | 0 <= i < j < |g| && H.SameClientId(g[i], g[j])
      ensures H.Deleted(g, i + 1, j)
    {
      if j < |h| { assert H.Deleted(h, i + 1, j); } else { assert H.SameClientId(h[i], e); }
    }
  }

  lemma ExtendedDeletions(h: seq<H.Entry>, e: H.Entry)
    ensures forall s: nat, n: nat :: n <= |h| ==> (H.Deleted(h + [e], s, n) <==> H.Deleted(h, s, n))
  {
    forall s: nat, n: nat | n <= |h|
      ensures H.Deleted(h + [e], s, n) <==> H.Deleted(h, s, n)
    {
      assert forall k :: 0 <= k < n ==> (h + [e])[k] == h[k];
      if H.Deleted(h, s, n) {
        var k :| 0 <= k < n && h[k] == H.Deletion(s);
        assert (h + [e])[k] == H.Deletion(s);
      }
    }
  }

  lemma DecodedExtends(dec: Decoder, rows: seq<Row>, row: Row)
    ensures Decoded(dec, rows + [row]) == Decoded(dec, rows) + [ToEntry(dec, row)]
  {}

  /** A client id that no surviving row has belongs to deleted rows only. */
  lemma ClashesAreDeleted(dec: Decoder, t: Tables, c: ConvId, row: Row, i: nat)
    requires RowsFromLog(t) && c in t.log && LogIsHistory(dec, t, c) && i < |t.log[c]|
    requires forall k :: !Sent(t.messages, k, row.sender, row.clientId)
    requires H.SameClientId(Decoded(dec, t.log[c])[i], ToEntry(dec, row))
    ensures H.Deleted(Decoded(dec, t.log[c]), i + 1, |t.log[c]|)
  {
    assert !Sent(t.messages, (c, i + 1), row.sender, row.clientId);
  }

  lemma AppendedRowsSurvive(dec: Decoder, t: Tables, c: ConvId, row: Row)
    requires Numbered(t) && c in t.convs && LogIsHistory(dec, t, c) && row.deleted.None?
    requires H.HistoryOk(Decoded(dec, t.log[c]) + [ToEntry(dec, row)])
    ensures LogIsHistory(dec, Insert(t, c, row), c)
  {
    var h, e, u := Decoded(dec, t.log[c]), ToEntry(dec, row), Insert(t, c, row);
    var g := Decoded(dec, u.log[c]);
    DecodedExtends(dec, t.log[c], row);
    ExtendedDeletions(h, e);
    forall s: nat | 0 < s <= |g|
      ensures (c, s) !in u.messages <==> H.Deleted(g, s, |g|)
    {
      H.DeletedStep(g, s, |g|);
      if s == |g| { H.NotDeletedYet(g, s, |g|); }
    }
  }

  /** Storing an envelope extends the history. */
  lemma AppendExtends(dec: Decoder, t: Tables, c: ConvId, row: Row)
    requires TablesOk(t) && c in t.convs && LogIsHistory(dec, t, c)
    requires row.deleted.None? && forall k :: !Sent(t.messages, k, row.sender, row.clientId)
    ensures LogIsHistory(dec, Insert(t, c, row), c)
  {
    hide H.RecordsOk, H.UniqueSurvivors, SentOnce, RecordsPointBack, Windows, DirectOnce, RowsFromLog;
    var h, e := Decoded(dec, t.log[c]), ToEntry(dec, row);
    forall i | 0 <= i < |h| && H.SameClientId(h[i], e)
      ensures H.Deleted(h, i + 1, |h|)
    {
      ClashesAreDeleted(dec, t, c, row, i);
    }
    MessageExtends(h, e);
    AppendedRowsSurvive(dec, t, c, row);
  }

  /** Replacing a message by its record extends the history. */
  lemma DeleteExtends(
    dec: Decoder, t: Tables, c: ConvId, s: nat, actor: AccountId, device: string, recordId: string, now: Millis)
    requires TablesOk(t) && c in t.convs && LogIsHistory(dec, t, c) && IsMessage(t, c, s)
    ensures LogIsHistory(
      dec, Insert(t.(messages := t.messages - {(c, s)}), c, Record(t, c, s, actor, device, recordId, now)), c)
  {
    var h, row := Decoded(dec, t.log[c]), Record(t, c, s, actor, device, recordId, now);
    assert t.messages[(c, s)] == t.log[c][s - 1];
    RecordExtends(h, s);
    DecodedExtends(dec, t.log[c], row);
    var u := Insert(t.(messages := t.messages - {(c, s)}), c, row);
    var g := Decoded(dec, u.log[c]);
    forall r: nat | 0 < r <= |g|
      ensures (c, r) !in u.messages <==> H.Deleted(g, r, |g|)
    {
      ExtendedDeletions(h, H.Deletion(s));
      H.DeletedStep(g, r, |g|);
      if r == |g| { H.NotDeletedYet(g, r, |g|); }
    }
  }

  /** Nothing was inserted or removed; new conversations are empty. */
  ghost predicate SameRows(t: Tables, u: Tables) {
    && u.messages == t.messages
    && (forall c :: c in t.log ==> c in u.log && u.log[c] == t.log[c])
    && (forall c :: c in u.log && c !in t.log ==> u.log[c] == [])
  }

  lemma SameRowsKeep(dec: Decoder, t: Tables, u: Tables)
    requires LogsAreHistories(dec, t) && SameRows(t, u)
    ensures LogsAreHistories(dec, u)
  {
    forall c | c in u.log
      ensures LogIsHistory(dec, u, c)
    {
      if c in t.log { assert LogIsHistory(dec, t, c); }
    }
  }

  lemma InsertKeepsHistories(dec: Decoder, t: Tables, c: ConvId, u: Tables)
    requires LogsAreHistories(dec, t) && c in u.log && LogIsHistory(dec, u, c) && u.log.Keys == t.log.Keys
    requires forall d, s: nat :: d != c ==> ((d, s) in t.messages <==> (d, s) in u.messages)
    requires forall d :: d in t.log && d != c ==> u.log[d] == t.log[d]
    ensures LogsAreHistories(dec, u)
  {
    forall d | d in u.log
      ensures LogIsHistory(dec, u, d)
    {
      if d != c { assert LogIsHistory(dec, t, d); }
    }
  }

  lemma OthersKeepRows(t: Tables, op: Op)
    requires TablesOk(t) && !op.OpPurge? && !op.OpAppend? && !op.OpDelete?
    ensures SameRows(t, Do(t, op))
  {
    hide SentOnce, RecordsPointBack, RowsFromLog, Windows, DirectOnce;
  }

  lemma AppendKeepsHistories(dec: Decoder, t: Tables, c: ConvId, row: Row, recipients: seq<AccountId>)
    requires TablesOk(t) && LogsAreHistories(dec, t)
    ensures LogsAreHistories(dec, Append(t, c, row, recipients).0)
  {
    hide SentOnce, DirectOnce, RecordsPointBack, RowsFromLog;
    if ValidateSend(t, c, row.sender, recipients).None? && FindSent(t.messages, row.sender, row.clientId).None? {
      var stored := row.(deleted := None);
      AppendExtends(dec, t, c, stored);
      InsertKeepsHistories(dec, t, c, Insert(t, c, stored));
    }
  }

  lemma DeleteKeepsHistories(
    dec: Decoder, t: Tables, c: ConvId, s: nat, actor: AccountId, device: string, recordId: string, now: Millis)
    requires TablesOk(t) && LogsAreHistories(dec, t)
    ensures LogsAreHistories(dec, Delete(t, c, s, actor, device, recordId, now).0)
  {
    hide SentOnce, DirectOnce, RecordsPointBack, LogIsHistory, RowsFromLog, Windows;
    var rest := t.(messages := t.messages - {(c, s)});
    if IsMessage(t, c, s) && c in t.convs && FindSent(rest.messages, actor, recordId).None? {
      var u := Insert(rest, c, Record(t, c, s, actor, device, recordId, now));
      DeleteExtends(dec, t, c, s, actor, device, recordId, now);
      assert LogIsHistory(dec, u, c);
      InsertKeepsHistories(dec, t, c, u);
    }
  }

  lemma DoKeepsHistories(dec: Decoder, t: Tables, op: Op)
    requires TablesOk(t) && LogsAreHistories(dec, t) && !op.OpPurge?
    ensures LogsAreHistories(dec, Do(t, op))
  {
    match op
    case OpAppend(c, row, recipients) => AppendKeepsHistories(dec, t, c, row, recipients);
    case OpDelete(c, s, actor, device, recordId, now) =>
      DeleteKeepsHistories(dec, t, c, s, actor, device, recordId, now);
    case _ =>
      OthersKeepRows(t, op);
      SameRowsKeep(dec, t, Do(t, op));
  }

  predicate NoPurge(ops: seq<Op>) {
    forall op :: op in ops ==> !op.OpPurge?
  }

  lemma {:induction false} RunsMakeHistories(dec: Decoder, t: Tables, ops: seq<Op>)
    requires TablesOk(t) && LogsAreHistories(dec, t) && NoPurge(ops)
    ensures TablesOk(Run(t, ops)) && LogsAreHistories(dec, Run(t, ops))
    decreases |ops|
  {
    if ops != [] {
      DoKeeps(t, ops[0]);
      DoKeepsHistories(dec, t, ops[0]);
      RunsMakeHistories(dec, Do(t, ops[0]), ops[1..]);
    }
  }

  /**
   Seen from a conversation, every step of the server leaves the log as it was or
   appends one row the device's side allows: the steps Append of module Convergence
   are the server's.
   */
  lemma ServerStepAppends(dec: Decoder, t: Tables, op: Op, c: ConvId)
    requires TablesOk(t) && LogsAreHistories(dec, t) && !op.OpPurge? && c in t.log
    ensures c in Do(t, op).log
    ensures
      var h, g := Decoded(dec, t.log[c]), Decoded(dec, Do(t, op).log[c]);
      g == h || exists e :: g == h + [e] && H.HistoryOk(h + [e])
  {
    DoKeepsHistories(dec, t, op);
    StepAppendsRow(t, op, c);
    var u := Do(t, op);
    hide TablesOk, Do;
    assert LogIsHistory(dec, u, c);
    if u.log[c] != t.log[c] {
      DecodedExtends(dec, t.log[c], u.log[c][|t.log[c]|]);
      assert u.log[c] == t.log[c] + [u.log[c][|t.log[c]|]];
    }
  }

  lemma StepAppendsRow(t: Tables, op: Op, c: ConvId)
    requires TablesOk(t) && c in t.log
    ensures var u := Do(t, op);
            c in u.log && (u.log[c] == t.log[c] || exists row :: u.log[c] == t.log[c] + [row])
  {
    hide SentOnce, DirectOnce, RecordsPointBack, RowsFromLog, Windows;
    match op
    case OpAppend(d, row, recipients) =>
      assert Do(t, op).log[c] == t.log[c] || Do(t, op).log[c] == t.log[c] + [row.(deleted := None)];
    case OpDelete(d, s, actor, device, recordId, now) =>
      if IsMessage(t, d, s) {
        var rec := Record(t, d, s, actor, device, recordId, now);
        assert Do(t, op).log[c] == t.log[c] || Do(t, op).log[c] == t.log[c] + [rec];
      }
    case _ =>
  }

  // --- The query lists the surviving rows ---------------------------------------------------

  function Prefix(rows: seq<nat>, limit: nat): seq<nat> {
    if |rows| <= limit then rows else rows[..limit]
  }

  lemma {:induction false} ListingIsPage(dec: Decoder, t: Tables, c: ConvId, s: nat, limit: nat)
    requires c in t.log && LogIsHistory(dec, t, c) && 0 < s
    ensures
      var h := Decoded(dec, t.log[c]);
      Listing(t.messages, c, s, |h|, limit) == Prefix(Convergence.RowsFrom(h, s), limit)
    decreases |t.log[c]| + 1 - s
  {
    var h := Decoded(dec, t.log[c]);
    if s <= |h| {
      if (c, s) in t.messages && limit > 0 {
        ListingIsPage(dec, t, c, s + 1, limit - 1);
        assert Convergence.RowsFrom(h, s) == [s] + Convergence.RowsFrom(h, s + 1);
      } else if limit > 0 {
        ListingIsPage(dec, t, c, s + 1, limit);
      }
    }
  }

  /** The limit+1 query, clamped to the member's window, answers a page and whether another follows. */
  lemma QueryIsPage(dec: Decoder, t: Tables, c: ConvId, after: int, minSeq: int, limit: nat)
    requires TablesOk(t) && c in t.log && LogIsHistory(dec, t, c)
    ensures
      var h := Decoded(dec, t.log[c]);
      var out := MessagesAfter(t, c, after, minSeq, limit + 1);
      var start := Max(0, Max(after, minSeq));
      && Prefix(out, limit) == Convergence.Page(h, start, limit)
      && (|out| > limit <==> Convergence.HasMore(h, start, limit))
  {
    ListingIsPage(dec, t, c, Start(after, minSeq), limit + 1);
    hide RowsFromLog, RecordsPointBack, SentOnce, Windows, DirectOnce, LogIsHistory;
  }

  lemma {:induction false} RowsFit(h: seq<H.Entry>, s: nat)
    requires 0 < s
    ensures |Convergence.RowsFrom(h, s)| <= |h|
    ensures s <= |h| + 1 ==> |Convergence.RowsFrom(h, s)| <= |h| + 1 - s
    decreases |h| + 1 - s
  {
    if s <= |h| { RowsFit(h, s + 1); }
  }

  /**
   End to end: after any run of the server without a purge, a device at any position that
   reads what the table still holds has the messages of one that saw every row as it was
   stored. It has the same texts exactly where the last edit left to read says what the
   last edit said.
   */
  lemma LateDeviceAgrees(dec: Decoder, ops: seq<Op>, c: ConvId, joined: nat, synced: nat)
    requires NoPurge(ops)
    requires c in Run(NO_TABLES, ops).log
    requires joined <= synced <= |Run(NO_TABLES, ops).log[c]|
    ensures
      var t := Run(NO_TABLES, ops);
      var h := Decoded(dec, t.log[c]);
      var rows, full := Listing(t.messages, c, synced + 1, |h|, |h|), H.Fold(h, joined, |h|);
      && Convergence.ValidRows(h, rows)
      && var read := Convergence.ApplyRows(h, Screen.View(H.Fold(h, joined, synced), None), rows).store;
      && read.Keys == full.Keys
      && (forall s: nat :: s in full ==> (read[s] == full[s] <==> Compaction.SameText(h, joined, synced, s)))
      && (read == full <==> forall s: nat :: s in full ==> Compaction.SameText(h, joined, synced, s))
  {
    hide H.Fold, Convergence.ApplyRows, Compaction.SameText, H.RecordsOk, H.UniqueSurvivors;
    NothingIsOk();
    RunsMakeHistories(dec, NO_TABLES, ops);
    var t := Run(NO_TABLES, ops);
    var h := Decoded(dec, t.log[c]);
    ListingIsPage(dec, t, c, synced + 1, |h|);
    RowsFit(h, synced + 1);
    Compaction.CompactionPreservesMeaning(h, joined, synced);
  }
}
