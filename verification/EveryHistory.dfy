/**
 The histories devices fold are exactly those the server can have made: a run without a
 purge leaves a history in every conversation, and every history is what some run leaves.
 */
module EveryHistory {
  import opened Wrappers
  import opened ServerLog
  import opened ServerRuns
  import opened ServerHistory
  import H = History
  import Bytes
  import Convergence
  import Roster
  import Text

  /** The run leaves log h in conversation c, as a device decodes it. */
  ghost predicate Makes(dec: Decoder, ops: seq<Op>, c: ConvId, h: seq<H.Entry>) {
    var t := Run(NO_TABLES, ops);
    NoPurge(ops) && c in t.log && Decoded(dec, t.log[c]) == h
  }

  // --- A run for a history ---------------------------------------------------------------------

  const GROUP: ConvId := "g"

  /** More than the length of any client id. */
  function IdLimit(h: seq<H.Entry>): (n: nat)
    ensures forall i :: 0 <= i < |h| && h[i].Message? ==> |h[i].clientId| < n
    decreases |h|
  {
    if h == [] then 0
    else
      var n, e := IdLimit(h[..|h| - 1]), h[|h| - 1];
      assert forall i :: 0 <= i < |h| - 1 ==> h[i] == h[..|h| - 1][i];
      if e.Message? then n + |e.clientId| + 1 else n
  }

  function Senders(h: seq<H.Entry>): seq<AccountId> {
    seq(|h|, i requires 0 <= i < |h| => if h[i].Message? then h[i].sender else "")
  }

  /** The envelope of row i is i bytes long, which tells the decoder what to answer. */
  function Envelope(i: nat): (env: Bytes.Bytes)
    ensures |env| == i
  {
    seq(i, k requires 0 <= k < i => 0)
  }

  function Reading(h: seq<H.Entry>): Decoder {
    (row: Row) =>
      if |row.env| < |h| && h[|row.env|].Message? then h[|row.env|].payload else H.Opaque("")
  }

  /** The client id of row i. */
  function IdOf(h: seq<H.Entry>, i: nat): string
    requires i < |h|
  {
    if h[i].Message? then h[i].clientId else Text.Long(IdLimit(h) + i)
  }

  function RowFor(h: seq<H.Entry>, i: nat): Row
    requires i < |h| && h[i].Message?
  {
    Row(h[i].sender, "", h[i].clientId, Envelope(i), [], h[i].serverTs, None, "")
  }

  /** Sends the message, or has its sender delete it. */
  function OpFor(h: seq<H.Entry>, i: nat): Op
    requires H.RecordsOk(h) && i < |h|
  {
    match h[i]
    case Message(_, _, _, _) => OpAppend(GROUP, RowFor(h, i), [])
    case Deletion(s) => OpDelete(GROUP, s, h[s - 1].sender, "", IdOf(h, i), 0)
  }

  function OpsFor(h: seq<H.Entry>, n: nat): seq<Op>
    requires H.RecordsOk(h) && n <= |h|
  {
    if n == 0 then [OpGroup(GROUP, "", Senders(h))] else OpsFor(h, n - 1) + [OpFor(h, n - 1)]
  }

  lemma {:induction false} RunLast(t: Tables, ops: seq<Op>, op: Op)
    ensures Run(t, ops + [op]) == Do(Run(t, ops), op)
    decreases |ops|
  {
    if ops == [] {
      assert [op][1..] == [] && ops + [op] == [op];
      assert Run(Do(t, op), []) == Do(t, op);
    } else {
      assert (ops + [op])[1..] == ops[1..] + [op];
      RunLast(Do(t, ops[0]), ops[1..], op);
    }
  }

  /** The tables after the first n rows. */
  ghost predicate Holds(t: Tables, h: seq<H.Entry>, n: nat)
    requires n <= |h|
  {
    && TablesOk(t) && t.log.Keys == {GROUP} && LogIsHistory(Reading(h), t, GROUP)
    && Decoded(Reading(h), t.log[GROUP]) == h[..n]
    && (forall i: nat :: i < |h| && h[i].Message? ==> IsMember(t, GROUP, h[i].sender))
    && forall i: nat :: i < n ==> t.log[GROUP][i].clientId == IdOf(h, i)
  }

  lemma StartHolds(h: seq<H.Entry>)
    requires H.HistoryOk(h)
    ensures Holds(Run(NO_TABLES, OpsFor(h, 0)), h, 0)
  {
    var op := OpGroup(GROUP, "", Senders(h));
    var t := Do(NO_TABLES, op);
    assert Run(NO_TABLES, [op]) == t by { assert [op][1..] == []; assert Run(t, []) == t; }
    NothingIsOk();
    DoKeeps(NO_TABLES, op);
    forall i: nat | i < |h| && h[i].Message?
      ensures IsMember(t, GROUP, h[i].sender)
    {
      assert Senders(h)[i] == h[i].sender;
      GroupHasItsMembers(map[], GROUP, "", Senders(h), (GROUP, h[i].sender));
    }
    assert Decoded(Reading(h), t.log[GROUP]) == [] == h[..0];
  }

  /** What is known of a surviving row. */
  lemma RowKnown(t: Tables, h: seq<H.Entry>, n: nat, k: Key)
    requires n <= |h| && Holds(t, h, n) && k in t.messages
    ensures k.0 == GROUP && 0 < k.1 <= n && !H.Deleted(h, k.1, n) && t.messages[k].clientId == IdOf(h, k.1 - 1)
    ensures h[k.1 - 1].Message? ==> t.messages[k].deleted.None? && t.messages[k].sender == h[k.1 - 1].sender
  {
    hide SentOnce, RecordsPointBack, Windows, DirectOnce, H.RecordsOk, H.UniqueSurvivors, IdOf, Reading;
    assert |Decoded(Reading(h), t.log[GROUP])| == n;
    assert k.0 in t.log && k.1 - 1 < n;
    assert h[k.1 - 1] == ToEntry(Reading(h), t.log[GROUP][k.1 - 1]);
    Convergence.LongerSame(h[..n], h, 0, n, k.1);
  }

  /** An earlier row in the way of row n was deleted before. */
  lemma IdClashes(h: seq<H.Entry>, i: nat, n: nat)
    requires H.UniqueSurvivors(h) && i < n < |h| && IdOf(h, i) == IdOf(h, n)
    requires h[i].Message? && h[n].Message? ==> h[i].sender == h[n].sender
    ensures H.Deleted(h, i + 1, n)
  {
    assert h[i].Message? && h[n].Message?;
    assert H.SameClientId(h[i], h[n]);
  }

  /** No surviving row stands in the way of row n. */
  lemma IdIsFree(t: Tables, h: seq<H.Entry>, n: nat, sender: AccountId, k: Key)
    requires H.HistoryOk(h) && n < |h| && Holds(t, h, n) && (h[n].Message? ==> sender == h[n].sender)
    ensures !Sent(t.messages, k, sender, IdOf(h, n))
  {
    hide Holds, H.Deleted, H.RecordsOk, H.UniqueSurvivors, IdOf;
    if Sent(t.messages, k, sender, IdOf(h, n)) {
      RowKnown(t, h, n, k);
      IdClashes(h, k.1 - 1, n);
    }
  }

  lemma AppendStores(t: Tables, c: ConvId, row: Row)
    requires IsMember(t, c, row.sender) && c in t.convs && c in t.log && row.deleted.None?
    requires forall k :: !Sent(t.messages, k, row.sender, row.clientId)
    ensures
      var u := Append(t, c, row, []).0;
      u.log == t.log[c := t.log[c] + [row]] && u.members == t.members
  {
    assert FindSent(t.messages, row.sender, row.clientId).None?;
  }

  lemma DeleteStores(t: Tables, c: ConvId, s: nat, actor: AccountId, recordId: string)
    requires IsMessage(t, c, s) && c in t.convs && c in t.log
    requires forall k :: !Sent(t.messages, k, actor, recordId)
    ensures
      var u := Delete(t, c, s, actor, "", recordId, 0).0;
      u.log == t.log[c := t.log[c] + [Record(t, c, s, actor, "", recordId, 0)]] && u.members == t.members
  {
    var rest := t.(messages := t.messages - {(c, s)});
    forall k
      ensures !Sent(rest.messages, k, actor, recordId)
    {
      assert !Sent(t.messages, k, actor, recordId);
    }
    assert FindSent(rest.messages, actor, recordId).None?;
  }

  /** The row is stored. */
  lemma MessageHolds(t: Tables, h: seq<H.Entry>, n: nat)
    requires H.HistoryOk(h) && n < |h| && Holds(t, h, n) && h[n].Message?
    ensures
      var u := Do(t, OpFor(h, n));
      u.log == t.log[GROUP := t.log[GROUP] + [RowFor(h, n)]] && u.members == t.members
  {
    assert IsMember(t, GROUP, h[n].sender) && GROUP in t.log && Numbered(t);
    hide Holds, H.RecordsOk, H.UniqueSurvivors, Append, Sent;
    forall k
      ensures !Sent(t.messages, k, h[n].sender, h[n].clientId)
    {
      IdIsFree(t, h, n, h[n].sender, k);
    }
    AppendStores(t, GROUP, RowFor(h, n));
  }

  /** The message that row n deletes is there. */
  lemma TargetIsThere(t: Tables, h: seq<H.Entry>, n: nat)
    requires H.RecordsOk(h) && n < |h| && Holds(t, h, n) && h[n].Deletion?
    ensures GROUP in t.convs && 0 < h[n].target <= n && IsMessage(t, GROUP, h[n].target)
  {
    hide SentOnce, RecordsPointBack, Windows, DirectOnce, RowsFromLog, H.UniqueSurvivors, Reading;
    Convergence.LongerSame(h[..n], h, 0, n, h[n].target);
    assert |Decoded(Reading(h), t.log[GROUP])| == n;
    hide IdOf;
    RowKnown(t, h, n, (GROUP, h[n].target));
  }

  /** The record is stored. */
  lemma RecordHolds(t: Tables, h: seq<H.Entry>, n: nat) returns (row: Row)
    requires H.HistoryOk(h) && n < |h| && Holds(t, h, n) && h[n].Deletion?
    ensures row.deleted == Some(h[n].target) && row.clientId == IdOf(h, n)
    ensures
      var u := Do(t, OpFor(h, n));
      u.log == t.log[GROUP := t.log[GROUP] + [row]] && u.members == t.members
  {
    hide TablesOk, LogIsHistory, Reading, H.Deleted, H.SameClientId;
    TargetIsThere(t, h, n);
    assert GROUP in t.log;
    hide Holds, H.RecordsOk, H.UniqueSurvivors, IdOf, Delete, Sent;
    var s := h[n].target;
    var sender := h[s - 1].sender;
    forall k
      ensures !Sent(t.messages, k, sender, IdOf(h, n))
    {
      IdIsFree(t, h, n, sender, k);
    }
    DeleteStores(t, GROUP, s, sender, IdOf(h, n));
    row := Record(t, GROUP, s, sender, "", IdOf(h, n), 0);
  }

  lemma StepKeepsTables(t: Tables, h: seq<H.Entry>, n: nat)
    requires H.HistoryOk(h) && n < |h| && Holds(t, h, n) && Do(t, OpFor(h, n)).log.Keys == {GROUP}
    ensures TablesOk(Do(t, OpFor(h, n))) && LogIsHistory(Reading(h), Do(t, OpFor(h, n)), GROUP)
  {
    hide TablesOk, LogIsHistory, Do, Reading, Grows, H.RecordsOk, H.UniqueSurvivors;
    DoKeeps(t, OpFor(h, n));
    DoKeepsHistories(Reading(h), t, OpFor(h, n));
  }

  /** Either way the next row is there. */
  lemma RowHolds(t: Tables, h: seq<H.Entry>, n: nat, row: Row)
    requires H.HistoryOk(h) && n < |h| && Holds(t, h, n)
    requires ToEntry(Reading(h), row) == h[n] && row.clientId == IdOf(h, n)
    requires
      var u := Do(t, OpFor(h, n));
      u.log == t.log[GROUP := t.log[GROUP] + [row]] && u.members == t.members
    ensures Holds(Do(t, OpFor(h, n)), h, n + 1)
  {
    hide TablesOk, Do, LogIsHistory, H.RecordsOk, H.UniqueSurvivors, Reading, ToEntry, IdOf, OpFor, Grows;
    var dec, u, last := Reading(h), Do(t, OpFor(h, n)), n + 1;
    StepKeepsTables(t, h, n);
    DecodedExtends(dec, t.log[GROUP], row);
    assert h[..n] + [h[n]] == h[..last];
    assert |Decoded(dec, t.log[GROUP])| == n;
    forall i: nat | i < last
      ensures u.log[GROUP][i].clientId == IdOf(h, i)
    {}
    forall i: nat | i < |h| && h[i].Message?
      ensures IsMember(u, GROUP, h[i].sender)
    {
      assert IsMember(t, GROUP, h[i].sender);
    }
  }

  lemma StepHolds(t: Tables, h: seq<H.Entry>, n: nat)
    requires H.HistoryOk(h) && n < |h| && Holds(t, h, n)
    ensures Holds(Do(t, OpFor(h, n)), h, n + 1)
  {
    if h[n].Message? {
      MessageHolds(t, h, n);
      hide Holds, Do, H.HistoryOk;
      RowHolds(t, h, n, RowFor(h, n));
    } else {
      var row := RecordHolds(t, h, n);
      hide Holds, Do, H.HistoryOk, IdOf;
      RowHolds(t, h, n, row);
    }
  }

  lemma {:induction false} OpsHold(h: seq<H.Entry>, n: nat)
    requires H.HistoryOk(h) && n <= |h|
    ensures Holds(Run(NO_TABLES, OpsFor(h, n)), h, n) && NoPurge(OpsFor(h, n))
    decreases n
  {
    hide Holds, Run, H.RecordsOk, H.UniqueSurvivors;
    if n == 0 {
      StartHolds(h);
    } else {
      OpsHold(h, n - 1);
      RunLast(NO_TABLES, OpsFor(h, n - 1), OpFor(h, n - 1));
      StepHolds(Run(NO_TABLES, OpsFor(h, n - 1)), h, n - 1);
    }
  }

  /**
   A sequence of entries is a history exactly when some run of the server without a purge
   leaves it in some conversation, as some device decodes it.
   */
  lemma HistoriesExactly(h: seq<H.Entry>)
    ensures H.HistoryOk(h) <==> exists dec: Decoder, ops: seq<Op>, c: ConvId :: Makes(dec, ops, c, h)
  {
    if H.HistoryOk(h) {
      OpsHold(h, |h|);
      assert h[..|h|] == h;
      hide H.HistoryOk, Run, TablesOk, LogIsHistory, OpsFor;
      assert Makes(Reading(h), OpsFor(h, |h|), GROUP, h);
    }
    if dec: Decoder, ops: seq<Op>, c: ConvId :| Makes(dec, ops, c, h) {
      NothingIsOk();
      RunsMakeHistories(dec, NO_TABLES, ops);
      hide H.HistoryOk, Run, TablesOk, NoPurge;
      assert LogIsHistory(dec, Run(NO_TABLES, ops), c);
    }
  }

  /** The server can make the histories on which a late device goes wrong. */
  lemma DivergencesAreMade(a: AccountId, b: AccountId)
    ensures exists dec: Decoder, ops: seq<Op>, c: ConvId :: Makes(dec, ops, c, Convergence.DeletedEdit())
    ensures exists dec: Decoder, ops: seq<Op>, c: ConvId :: Makes(dec, ops, c, Roster.DeletedRoster(a, b))
    ensures exists dec: Decoder, ops: seq<Op>, c: ConvId :: Makes(dec, ops, c, Roster.DeletedName(a))
  {
    Convergence.SecondDeletedHistory(Convergence.DeletedEdit());
    Convergence.SecondDeletedHistory(Roster.DeletedRoster(a, b));
    Convergence.SecondDeletedHistory(Roster.DeletedName(a));
    HistoriesExactly(Convergence.DeletedEdit());
    HistoriesExactly(Roster.DeletedRoster(a, b));
    HistoriesExactly(Roster.DeletedName(a));
    hide Makes, H.HistoryOk;
  }
}
