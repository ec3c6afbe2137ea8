/**
 What a device knows about a conversation besides its messages: how far it has
 read, the roster that signed membership events vouch for, and the name.
 */
module Roster {
  import opened Wrappers
  import opened History
  import C = Convergence

  datatype Meta = Meta(synced: nat, last: nat, read: nat, roster: Option<seq<Account>>, rosterSeq: nat, name: string)

  /** A row with nothing new to read: it moves the read mark only if everything before it is read. */
  function Silently(m: Meta, at: nat): Meta {
    m.(synced := Max(m.synced, at), last := Max(m.last, at),
       read := if m.read < at <= m.read + 1 then at else m.read)
  }

  /** A membership event: it replaces the whole roster. */
  predicate IsRoster(e: Entry) {
    e.Message? && (e.payload.ConvCreate? || e.payload.Membership?)
  }

  function MembersOf(e: Entry): seq<Account>
    requires IsRoster(e)
  {
    if e.payload.ConvCreate? then e.payload.initial else e.payload.members
  }

  function NameAfter(m: Meta, at: nat, e: Entry): string
    requires e.Message?
  {
    if at <= m.rosterSeq then m.name
    else
      match e.payload
      case ConvCreate(title, _) => if title != "" then title else m.name
      case Rename(title) => title
      case _ => m.name
  }

  /** What handling row `at` does to the conversation. */
  function MetaStep(me: Account, m: Meta, at: nat, e: Entry): Meta {
    if e.Deletion? || IsEdit(e) then Silently(m, at)
    else
      var newer := at > m.rosterSeq && IsRoster(e);
      Meta(Max(m.synced, at), Max(m.last, at), if e.sender == me && at > m.read then at else m.read,
           if newer then Some(MembersOf(e)) else m.roster, if newer then at else m.rosterSeq, NameAfter(m, at, e))
  }

  // --- Delivery in any order -------------------------------------------------------------

  /** Rows handled one after the other: live, backfilled, repeated, in whatever order. */
  function Delivered(me: Account, m: Meta, h: seq<Entry>, frames: seq<nat>): Meta
    requires C.ValidRows(h, frames)
    decreases |frames|
  {
    if frames == [] then m
    else
      var n := |frames| - 1;
      MetaStep(me, Delivered(me, m, h, frames[..n]), frames[n], h[frames[n] - 1])
  }

  lemma DeliveredLast(me: Account, m: Meta, h: seq<Entry>, rows: seq<nat>, f: nat)
    requires C.ValidRows(h, rows) && 0 < f <= |h|
    ensures C.ValidRows(h, rows + [f]) && Delivered(me, m, h, []) == m
    ensures Delivered(me, m, h, rows + [f]) == MetaStep(me, Delivered(me, m, h, rows), f, h[f - 1])
  {
    assert (rows + [f])[..|rows|] == rows;
  }

  lemma {:induction false} DeliveredLonger(me: Account, m: Meta, h: seq<Entry>, g: seq<Entry>, rows: seq<nat>)
    requires h <= g && C.ValidRows(h, rows)
    ensures C.ValidRows(g, rows) && Delivered(me, m, h, rows) == Delivered(me, m, g, rows)
    decreases |rows|
  {
    if rows != [] {
      DeliveredLonger(me, m, h, g, rows[..|rows| - 1]);
    }
  }

  lemma {:induction false} DeliveredJoins(me: Account, m: Meta, h: seq<Entry>, a: seq<nat>, b: seq<nat>)
    requires C.ValidRows(h, a) && C.ValidRows(h, b)
    ensures C.ValidRows(h, a + b) && Delivered(me, Delivered(me, m, h, a), h, b) == Delivered(me, m, h, a + b)
    decreases |b|
  {
    if b == [] {
      assert a + b == a;
    } else {
      var n := |b| - 1;
      DeliveredJoins(me, m, h, a, b[..n]);
      hide MetaStep;
      assert (a + b)[..|a + b| - 1] == a + b[..n] && (a + b)[|a + b| - 1] == b[n];
    }
  }

  /** s is the newest membership event among the frames that is newer than `floor`, or `floor` itself. */
  predicate IsNewest(h: seq<Entry>, frames: seq<nat>, floor: nat, s: nat)
    requires C.ValidRows(h, frames)
  {
    && (s == floor || (s > floor && s in frames && IsRoster(h[s - 1])))
    && forall i :: 0 <= i < |frames| && IsRoster(h[frames[i] - 1]) ==> frames[i] <= s
  }

  /** After the frames, roster and number are those of membership event s. */
  predicate FromEvent(h: seq<Entry>, before: Meta, after: Meta, s: nat) {
    && after.rosterSeq == s
    && (s == before.rosterSeq ==> after.roster == before.roster)
    && (s != before.rosterSeq ==> 0 < s <= |h| && IsRoster(h[s - 1]) && after.roster == Some(MembersOf(h[s - 1])))
  }

  /** Last writer wins: in any order and with any repetition the roster ends as that of the greatest number. */
  lemma {:induction false} RosterIsNewest(me: Account, m: Meta, h: seq<Entry>, frames: seq<nat>, s: nat)
    requires C.ValidRows(h, frames) && IsNewest(h, frames, m.rosterSeq, s)
    ensures FromEvent(h, m, Delivered(me, m, h, frames), s)
    decreases |frames|
  {
    if frames != [] {
      var n := |frames| - 1;
      var rest, f := frames[..n], frames[n];
      assert frames == rest + [f];
      if IsRoster(h[f - 1]) && f == s && s > m.rosterSeq && s !in rest {
        var t := NewestOf(h, rest, m.rosterSeq);
        assert t < s;
        RosterIsNewest(me, m, h, rest, t);
      } else {
        assert IsNewest(h, rest, m.rosterSeq, s);
        RosterIsNewest(me, m, h, rest, s);
      }
    }
  }

  /** There is a newest one. */
  lemma NewestOf(h: seq<Entry>, frames: seq<nat>, floor: nat) returns (s: nat)
    requires C.ValidRows(h, frames)
    ensures IsNewest(h, frames, floor, s)
  {
    s := floor;
    var i := 0;
    while i < |frames|
      invariant 0 <= i <= |frames|
      invariant s == floor || (s > floor && s in frames && IsRoster(h[s - 1]))
      invariant floor <= s
      invariant forall j :: 0 <= j < i && IsRoster(h[frames[j] - 1]) && frames[j] > floor ==> frames[j] <= s
    {
      if frames[i] > s && IsRoster(h[frames[i] - 1]) {
        s := frames[i];
      }
      i := i + 1;
    }
  }

  lemma SameNewest(h: seq<Entry>, a: seq<nat>, b: seq<nat>, floor: nat, s: nat)
    requires C.ValidRows(h, a) && C.ValidRows(h, b) && (forall f :: f in a <==> f in b) && IsNewest(h, a, floor, s)
    ensures IsNewest(h, b, floor, s)
  {
    forall i | 0 <= i < |b| && IsRoster(h[b[i] - 1]) ensures b[i] <= s {
      assert b[i] in b;
      assert b[i] in a;
    }
  }

  /** Two devices that were delivered the same rows agree on the roster, whatever the order. */
  lemma OrderDoesNotMatter(me: Account, you: Account, m: Meta, h: seq<Entry>, a: seq<nat>, b: seq<nat>)
    requires C.ValidRows(h, a) && C.ValidRows(h, b) && forall f :: f in a <==> f in b
    ensures Delivered(me, m, h, a).roster == Delivered(you, m, h, b).roster
    ensures Delivered(me, m, h, a).rosterSeq == Delivered(you, m, h, b).rosterSeq
  {
    var s := NewestOf(h, a, m.rosterSeq);
    SameNewest(h, a, b, m.rosterSeq, s);
    RosterIsNewest(me, m, h, a, s);
    RosterIsNewest(you, m, h, b, s);
  }

  /** The positions never go back, under any delivery. */
  lemma {:induction false} PositionsGrow(me: Account, m: Meta, h: seq<Entry>, frames: seq<nat>)
    requires C.ValidRows(h, frames)
    ensures var r := Delivered(me, m, h, frames);
            && m.synced <= r.synced && m.last <= r.last && m.read <= r.read && m.rosterSeq <= r.rosterSeq
            && (forall f :: f in frames ==> f <= r.synced && f <= r.last)
            && (m.read <= m.last ==> r.read <= r.last)
    decreases |frames|
  {
    if frames != [] {
      var n := |frames| - 1;
      PositionsGrow(me, m, h, frames[..n]);
      assert frames == frames[..n] + [frames[n]];
    }
  }

  /** A membership event newer than the roster replaces it with its own list; nothing else touches it. */
  lemma RosterMoves(me: Account, m: Meta, at: nat, e: Entry)
    ensures
      var r := MetaStep(me, m, at, e);
      var list :=
        if e.Deletion? then None
        else match e.payload
          case ConvCreate(_, initial) => Some(initial)
          case Membership(members) => Some(members)
          case _ => None;
      if list.Some? && at > m.rosterSeq then r.roster == list && r.rosterSeq == at
      else r.roster == m.roster && r.rosterSeq == m.rosterSeq
  {}

  // --- What is read --------------------------------------------------------------------------

  /** A message of one's own. */
  predicate OwnPost(me: Account, e: Entry) {
    IsPost(e) && e.sender == me
  }

  /** What moves the mark: an own message, to its number; a silent row, only if everything before it is read. */
  lemma ReadMoves(me: Account, m: Meta, at: nat, e: Entry)
    ensures
      var read := MetaStep(me, m, at, e).read;
      && (at <= m.read ==> read == m.read)
      && (at > m.read && OwnPost(me, e) ==> read == at)
      && (at > m.read && IsPost(e) && e.sender != me ==> read == m.read)
      && (at > m.read && !IsPost(e) ==> read == if at == m.read + 1 then at else m.read)
  {}

  /** An own message, number i or above, is among the frames. */
  predicate Spoke(me: Account, h: seq<Entry>, frames: seq<nat>, i: nat)
    requires C.ValidRows(h, frames)
  {
    exists j :: 0 <= j < |frames| && frames[j] >= i && OwnPost(me, h[frames[j] - 1])
  }

  lemma SpokeLast(me: Account, h: seq<Entry>, frames: seq<nat>, i: nat)
    requires C.ValidRows(h, frames) && frames != []
    ensures
      var n := |frames| - 1;
      Spoke(me, h, frames, i) <==> Spoke(me, h, frames[..n], i) || (frames[n] >= i && OwnPost(me, h[frames[n] - 1]))
  {
    var n := |frames| - 1;
    var rest := frames[..n];
    hide OwnPost;
    if Spoke(me, h, rest, i) {
      var j :| 0 <= j < |rest| && rest[j] >= i && OwnPost(me, h[rest[j] - 1]);
      assert frames[j] == rest[j];
    }
    if Spoke(me, h, frames, i) {
      var j :| 0 <= j < |frames| && frames[j] >= i && OwnPost(me, h[frames[j] - 1]);
      assert j == n || rest[j] == frames[j];
    }
  }

  /**
   Somebody else's message that was not read stays unread under any delivery, however often it
   and the rows around it are handled, until the device handles a later message of its own; and
   that reads it.
   */
  lemma {:induction false} UnreadUntilSpoken(me: Account, m: Meta, h: seq<Entry>, frames: seq<nat>, i: nat)
    requires C.ValidRows(h, frames) && 0 < i <= |h| && m.read < i && IsPost(h[i - 1]) && h[i - 1].sender != me
    ensures Delivered(me, m, h, frames).read < i <==> !Spoke(me, h, frames, i)
    decreases |frames|
  {
    if frames == [] {
      assert !Spoke(me, h, frames, i);
    } else {
      var n := |frames| - 1;
      UnreadUntilSpoken(me, m, h, frames[..n], i);
      SpokeLast(me, h, frames, i);
      ReadMoves(me, Delivered(me, m, h, frames[..n]), frames[n], h[frames[n] - 1]);
      hide MetaStep, Spoke;
    }
  }

  /** The positions are those of rows that came, or what they were; with PositionsGrow that makes them the greatest. */
  lemma {:induction false} PositionsAreRows(me: Account, m: Meta, h: seq<Entry>, frames: seq<nat>)
    requires C.ValidRows(h, frames)
    ensures
      var r := Delivered(me, m, h, frames);
      && (r.synced == m.synced || r.synced in frames) && (r.last == m.last || r.last in frames)
      && (r.read == m.read || r.read in frames)
    decreases |frames|
  {
    if frames != [] {
      var n := |frames| - 1;
      PositionsAreRows(me, m, h, frames[..n]);
      StepPositions(me, Delivered(me, m, h, frames[..n]), frames[n], h[frames[n] - 1]);
      hide MetaStep, C.ValidRows;
      FrontIn(frames, n);
    }
  }

  lemma FrontIn(frames: seq<nat>, n: nat)
    requires n < |frames|
    ensures frames[n] in frames && forall k :: k in frames[..n] ==> k in frames
  {}

  lemma StepPositions(me: Account, m: Meta, at: nat, e: Entry)
    ensures
      var r := MetaStep(me, m, at, e);
      && (r.synced == m.synced || r.synced == at) && (r.last == m.last || r.last == at)
      && (r.read == m.read || r.read == at)
  {}

  // --- Names are different ------------------------------------------------------------------

  predicate IsName(e: Entry) {
    e.Message? && (e.payload.Rename? || (e.payload.ConvCreate? && e.payload.title != ""))
  }

  function TitleOf(e: Entry): string
    requires IsName(e)
  {
    if e.payload.Rename? then e.payload.newTitle else e.payload.title
  }

  /** A row newer than the roster gives the conversation its name, or leaves the name alone. */
  lemma NameStep(me: Account, m: Meta, at: nat, e: Entry)
    ensures MetaStep(me, m, at, e).name == if IsName(e) && at > m.rosterSeq then TitleOf(e) else m.name
  {}

  /** The same for the last of several frames. */
  lemma LastNameStep(me: Account, m: Meta, h: seq<Entry>, frames: seq<nat>)
    requires C.ValidRows(h, frames) && frames != []
    ensures
      var n := |frames| - 1;
      var before := Delivered(me, m, h, frames[..n]);
      Delivered(me, m, h, frames).name
      == if IsName(h[frames[n] - 1]) && frames[n] > before.rosterSeq then TitleOf(h[frames[n] - 1]) else before.name
  {
    var n := |frames| - 1;
    NameStep(me, Delivered(me, m, h, frames[..n]), frames[n], h[frames[n] - 1]);
    hide MetaStep, IsName, TitleOf;
  }

  /** The i-th frame gives the conversation its name: its number is above that of the roster it finds. */
  ghost predicate TakesName(me: Account, m: Meta, h: seq<Entry>, frames: seq<nat>, i: nat)
    requires C.ValidRows(h, frames)
  {
    && i < |frames| && IsName(h[frames[i] - 1])
    && frames[i] > Delivered(me, m, h, frames[..i]).rosterSeq
  }

  ghost predicate LastTakes(me: Account, m: Meta, h: seq<Entry>, frames: seq<nat>, i: nat)
    requires C.ValidRows(h, frames)
  {
    TakesName(me, m, h, frames, i) && forall j: nat :: i < j ==> !TakesName(me, m, h, frames, j)
  }

  lemma TakesBefore(me: Account, m: Meta, h: seq<Entry>, frames: seq<nat>, i: nat)
    requires C.ValidRows(h, frames) && i < |frames| - 1
    ensures TakesName(me, m, h, frames[..|frames| - 1], i) == TakesName(me, m, h, frames, i)
  {
    assert frames[..|frames| - 1][..i] == frames[..i];
  }

  lemma LastTakesBefore(me: Account, m: Meta, h: seq<Entry>, frames: seq<nat>, i: nat)
    requires C.ValidRows(h, frames) && frames != [] && !TakesName(me, m, h, frames, |frames| - 1)
    requires LastTakes(me, m, h, frames[..|frames| - 1], i)
    ensures LastTakes(me, m, h, frames, i)
  {
    TakesBefore(me, m, h, frames, i);
    forall j: nat | i < j
      ensures !TakesName(me, m, h, frames, j)
    {
      if j < |frames| - 1 { TakesBefore(me, m, h, frames, j); }
      hide Delivered, IsName;
    }
    hide Delivered, IsName;
  }

  lemma NoneTakesBefore(me: Account, m: Meta, h: seq<Entry>, frames: seq<nat>, rest: seq<nat>)
    requires C.ValidRows(h, frames) && frames != [] && !TakesName(me, m, h, frames, |frames| - 1)
    requires rest == frames[..|frames| - 1] && forall i: nat :: !TakesName(me, m, h, rest, i)
    ensures forall i: nat :: !TakesName(me, m, h, frames, i)
  {
    forall i: nat
      ensures !TakesName(me, m, h, frames, i)
    {
      if i < |frames| - 1 { TakesBefore(me, m, h, frames, i); }
      hide Delivered, IsName;
    }
  }

  /** What the last frame does to the name. */
  lemma LastFrameNames(me: Account, m: Meta, h: seq<Entry>, frames: seq<nat>)
    requires C.ValidRows(h, frames) && frames != []
    ensures
      var n := |frames| - 1;
      && (TakesName(me, m, h, frames, n) ==> IsName(h[frames[n] - 1]) && LastTakes(me, m, h, frames, n))
      && Delivered(me, m, h, frames).name
         == if TakesName(me, m, h, frames, n) then TitleOf(h[frames[n] - 1])
            else Delivered(me, m, h, frames[..n]).name
  {
    LastNameStep(me, m, h, frames);
    hide Delivered, IsName, TitleOf;
  }

  /** Under any delivery the name is that of the last frame that gives one, or the old name if none does. */
  lemma {:induction false} NameIsLastTaken(me: Account, m: Meta, h: seq<Entry>, frames: seq<nat>)
    requires C.ValidRows(h, frames)
    ensures
      var name := Delivered(me, m, h, frames).name;
      || (name == m.name && forall i: nat :: !TakesName(me, m, h, frames, i))
      || exists i: nat :: LastTakes(me, m, h, frames, i) && name == TitleOf(h[frames[i] - 1])
    decreases |frames|
  {
    if frames == [] {
      assert Delivered(me, m, h, frames) == m;
    } else {
      hide IsName, TitleOf, Delivered, TakesName, LastTakes;
      var n := |frames| - 1;
      var rest := frames[..n];
      NameIsLastTaken(me, m, h, rest);
      LastFrameNames(me, m, h, frames);
      var name := Delivered(me, m, h, frames).name;
      if !TakesName(me, m, h, frames, n) {
        if i: nat :| LastTakes(me, m, h, rest, i) && name == TitleOf(h[rest[i] - 1]) {
          LastTakesBefore(me, m, h, frames, i);
        } else {
          NoneTakesBefore(me, m, h, frames, rest);
        }
      }
    }
  }

  lemma RenameActs(me: Account, m: Meta, at: nat, e: Entry)
    requires e.Message? && e.payload.Rename? && m.rosterSeq < at
    ensures MetaStep(me, m, at, e).name == TitleOf(e) && MetaStep(me, m, at, e).rosterSeq == m.rosterSeq
  {}

  /** A stale rename that is handled again wins, while no roster outranks it. */
  lemma NameFollowsDelivery(me: Account, m: Meta, h: seq<Entry>, a: nat, b: nat)
    requires 0 < a < b <= |h| && h[a - 1].Message? && h[b - 1].Message? && m.rosterSeq < a
    requires h[a - 1].payload.Rename? && h[b - 1].payload.Rename?
    ensures Delivered(me, m, h, [a, b]).name == TitleOf(h[b - 1])
    ensures Delivered(me, m, h, [a, b, a]).name == TitleOf(h[a - 1])
  {
    hide Delivered, MetaStep, TitleOf;
    DeliveredLast(me, m, h, [], a);
    DeliveredLast(me, m, h, [a], b);
    DeliveredLast(me, m, h, [a, b], a);
    assert [] + [a] == [a] && [a] + [b] == [a, b] && [a, b] + [a] == [a, b, a];
    RenameActs(me, m, a, h[a - 1]);
    RenameActs(me, Delivered(me, m, h, [a]), b, h[b - 1]);
    RenameActs(me, Delivered(me, m, h, [a, b]), a, h[a - 1]);
  }

  /** Delivered in ascending order, the name is that of the last row that gives one. */
  lemma {:induction false} NameIsNewestInOrder(me: Account, m: Meta, h: seq<Entry>, frames: seq<nat>, i: nat)
    requires C.ValidRows(h, frames) && C.Ascending(frames) && i < |frames| && IsName(h[frames[i] - 1])
    requires forall j :: 0 <= j < |frames| ==> frames[j] > m.rosterSeq
    requires forall j :: i < j < |frames| ==> !IsName(h[frames[j] - 1])
    ensures Delivered(me, m, h, frames).name == TitleOf(h[frames[i] - 1])
    decreases |frames|
  {
    hide IsName, TitleOf, Delivered;
    var n := |frames| - 1;
    var rest := frames[..n];
    RosterBelow(me, m, h, rest, frames[n]);
    LastNameStep(me, m, h, frames);
    if i < n {
      NameIsNewestInOrder(me, m, h, rest, i);
    }
  }

  lemma {:induction false} RosterBelow(me: Account, m: Meta, h: seq<Entry>, frames: seq<nat>, bound: nat)
    requires C.ValidRows(h, frames) && m.rosterSeq < bound
    requires forall i :: 0 <= i < |frames| && IsRoster(h[frames[i] - 1]) ==> frames[i] < bound
    ensures Delivered(me, m, h, frames).rosterSeq < bound
    decreases |frames|
  {
    if frames != [] {
      RosterBelow(me, m, h, frames[..|frames| - 1], bound);
    }
  }

  // --- A late device ---------------------------------------------------------------------------

  function AllRows(joined: nat, n: nat): (rows: seq<nat>)
    ensures forall f :: f in rows <==> joined < f <= n
    ensures forall i :: 0 <= i < |rows| ==> joined < rows[i] <= n
  {
    if n <= joined then [] else AllRows(joined, n - 1) + [n]
  }

  /** The newest of the kept rows is the newest of all exactly when that one is kept. */
  lemma KeptNewest(h: seq<Entry>, all: seq<nat>, kept: seq<nat>, floor: nat, s: nat, t: nat)
    requires C.ValidRows(h, all) && C.ValidRows(h, kept) && IsNewest(h, all, floor, s) && IsNewest(h, kept, floor, t)
    requires forall i :: 0 <= i < |kept| ==> kept[i] in all && !Deleted(h, kept[i], |h|)
    requires forall f :: f in all && !Deleted(h, f, |h|) ==> f in kept
    ensures s == t <==> s == floor || !Deleted(h, s, |h|)
  {
    hide Deleted, IsRoster;
  }

  /** The roster after membership event s, or the roster before if s is the number it came with. */
  function RosterOf(h: seq<Entry>, m: Meta, s: nat): Option<seq<Account>>
    requires s != m.rosterSeq ==> 0 < s <= |h| && IsRoster(h[s - 1])
  {
    if s == m.rosterSeq then m.roster else Some(MembersOf(h[s - 1]))
  }

  lemma RostersCompare(h: seq<Entry>, m: Meta, a: Meta, b: Meta, t: nat, s: nat)
    requires FromEvent(h, m, a, t) && FromEvent(h, m, b, s)
    ensures a.rosterSeq == b.rosterSeq <==> s == t
    ensures a.roster == RosterOf(h, m, t) && b.roster == RosterOf(h, m, s)
  {}

  /**
   A device that reads only the surviving rows after its joining point, s being the newest
   membership event and t the newest that survives: it has the number of the roster exactly
   when s was not deleted, and the roster itself exactly when s was not deleted or t names
   the same members.
   */
  lemma LateDeviceRoster(me: Account, you: Account, m: Meta, h: seq<Entry>, joined: nat, s: nat, t: nat)
    requires joined <= |h| && C.ValidRows(h, AllRows(joined, |h|)) && C.ValidRows(h, C.RowsFrom(h, joined + 1))
    requires IsNewest(h, AllRows(joined, |h|), m.rosterSeq, s)
    requires IsNewest(h, C.RowsFrom(h, joined + 1), m.rosterSeq, t)
    ensures
      var late, full := Delivered(me, m, h, C.RowsFrom(h, joined + 1)), Delivered(you, m, h, AllRows(joined, |h|));
      var kept := s == m.rosterSeq || !Deleted(h, s, |h|);
      && (late.rosterSeq == full.rosterSeq <==> kept)
      && (late.roster == full.roster <==> kept || RosterOf(h, m, t) == RosterOf(h, m, s))
  {
    var all, kept := AllRows(joined, |h|), C.RowsFrom(h, joined + 1);
    C.RowsSurvive(h, joined + 1);
    forall f | f in all && !Deleted(h, f, |h|) ensures f in kept {
      C.SurvivorsAreRows(h, joined + 1, f);
    }
    hide Deleted, Delivered, IsNewest, FromEvent, C.RowsFrom;
    RosterIsNewest(you, m, h, all, s);
    RosterIsNewest(me, m, h, kept, t);
    KeptNewest(h, all, kept, m.rosterSeq, s, t);
    RostersCompare(h, m, Delivered(me, m, h, kept), Delivered(you, m, h, all), t, s);
  }

  /** s is the newest row among the frames that names the conversation, or 0 if none does. */
  predicate NewestNaming(h: seq<Entry>, frames: seq<nat>, s: nat)
    requires C.ValidRows(h, frames)
  {
    && (s != 0 ==> s in frames && IsName(h[s - 1]))
    && forall i :: 0 <= i < |frames| && IsName(h[frames[i] - 1]) ==> frames[i] <= s
  }

  /** The name row s gives, or the one from before if s is 0. */
  function NameOf(h: seq<Entry>, m: Meta, s: nat): string
    requires s != 0 ==> s <= |h| && IsName(h[s - 1])
  {
    if s == 0 then m.name else TitleOf(h[s - 1])
  }

  lemma {:induction false} NoNameGiven(me: Account, m: Meta, h: seq<Entry>, frames: seq<nat>)
    requires C.ValidRows(h, frames) && forall i :: 0 <= i < |frames| ==> !IsName(h[frames[i] - 1])
    ensures Delivered(me, m, h, frames).name == m.name
    decreases |frames|
  {
    if frames != [] {
      var n := |frames| - 1;
      NoNameGiven(me, m, h, frames[..n]);
      NameStep(me, Delivered(me, m, h, frames[..n]), frames[n], h[frames[n] - 1]);
      hide MetaStep, IsName, TitleOf;
    }
  }

  lemma NameInOrder(me: Account, m: Meta, h: seq<Entry>, frames: seq<nat>, s: nat)
    requires C.ValidRows(h, frames) && C.Ascending(frames) && NewestNaming(h, frames, s)
    requires forall r :: r in frames ==> m.rosterSeq < r
    ensures Delivered(me, m, h, frames).name == NameOf(h, m, s)
  {
    hide IsName, TitleOf, Delivered;
    if s == 0 {
      NoNameGiven(me, m, h, frames);
    } else {
      var i: nat :| i < |frames| && frames[i] == s;
      assert forall j :: 0 <= j < |frames| ==> frames[j] in frames;
      NameIsNewestInOrder(me, m, h, frames, i);
    }
  }

  lemma {:induction false} AllRowsAscend(joined: nat, n: nat)
    ensures C.Ascending(AllRows(joined, n))
    decreases n
  {
    if joined < n { AllRowsAscend(joined, n - 1); }
  }

  /**
   The name of that device, s being the newest naming row and t the newest that survives: it is
   the name of row t, and that is the name a device has that saw every row exactly when there
   was no rename, or the newest was not deleted, or row t gives the same title.
   */
  lemma LateDeviceName(me: Account, you: Account, m: Meta, h: seq<Entry>, joined: nat, s: nat, t: nat)
    requires m.rosterSeq <= joined <= |h|
    requires C.ValidRows(h, AllRows(joined, |h|)) && C.ValidRows(h, C.RowsFrom(h, joined + 1))
    requires NewestNaming(h, AllRows(joined, |h|), s) && NewestNaming(h, C.RowsFrom(h, joined + 1), t)
    ensures
      var late, full := Delivered(me, m, h, C.RowsFrom(h, joined + 1)), Delivered(you, m, h, AllRows(joined, |h|));
      && late.name == NameOf(h, m, t) && full.name == NameOf(h, m, s)
      && (late.name == full.name <==> s == 0 || !Deleted(h, s, |h|) || NameOf(h, m, t) == NameOf(h, m, s))
  {
    hide *;
    var all, kept := AllRows(joined, |h|), C.RowsFrom(h, joined + 1);
    KeptAndAll(h, joined, all, kept);
    NameInOrder(you, m, h, all, s);
    NameInOrder(me, m, h, kept, t);
    if s == 0 || !Deleted(h, s, |h|) { SameNaming(h, all, kept, s, t); }
  }

  /** The rows there were, and those that are left. */
  lemma KeptAndAll(h: seq<Entry>, joined: nat, all: seq<nat>, kept: seq<nat>)
    requires joined <= |h| && all == AllRows(joined, |h|) && kept == C.RowsFrom(h, joined + 1)
    ensures C.Ascending(all) && C.Ascending(kept) && (forall r :: r in all ==> joined < r <= |h|)
    ensures forall r :: r in kept <==> r in all && !Deleted(h, r, |h|)
  {
    AllRowsAscend(joined, |h|);
    C.RowsSurvive(h, joined + 1);
    hide C.RowsFrom, AllRows, Deleted;
    forall r | r in all && !Deleted(h, r, |h|)
      ensures r in kept
    {
      C.SurvivorsAreRows(h, joined + 1, r);
    }
  }

  lemma SameNaming(h: seq<Entry>, all: seq<nat>, kept: seq<nat>, s: nat, t: nat)
    requires C.ValidRows(h, all) && C.ValidRows(h, kept) && (forall r :: r in kept ==> r in all)
    requires NewestNaming(h, all, s) && NewestNaming(h, kept, t)
    requires forall r :: r in all && !Deleted(h, r, |h|) ==> r in kept
    requires s == 0 || !Deleted(h, s, |h|)
    ensures s == t
  {
    hide IsName, Deleted;
    if s != 0 { var i :| 0 <= i < |kept| && kept[i] == s; }
    if t != 0 { var i :| 0 <= i < |all| && all[i] == t; }
  }

  // --- Two instances ---------------------------------------------------------------------------

  /** Two membership events, and a record that removes the newer one. */
  function DeletedRoster(a: Account, b: Account): seq<Entry> {
    [Message(a, "1", 0, Membership([a])), Message(a, "2", 0, Membership([a, b])), Deletion(2)]
  }

  /** Two renames, and a record that removes the newer one. */
  function DeletedName(a: Account): seq<Entry> {
    [Message(a, "1", 0, Rename("old")), Message(a, "2", 0, Rename("new")), Deletion(2)]
  }

  lemma RowsOfThree(h: seq<Entry>)
    requires C.SecondDeleted(h)
    ensures HistoryOk(h) && Deleted(h, 2, 3) && C.RowsFrom(h, 0 + 1) == [1, 3] && AllRows(0, 3) == [1, 2, 3]
    ensures C.ValidRows(h, [1, 3]) && C.ValidRows(h, [1, 2, 3])
  {
    C.SecondDeletedHistory(h);
    assert AllRows(0, 0) == [];
    assert AllRows(0, 1) == [1];
    assert AllRows(0, 2) == [1, 2];
  }

  /** The device that comes after the record has the older roster. */
  lemma LateRosterDiffers(me: Account, you: Account, m: Meta, a: Account, b: Account)
    requires m.rosterSeq == 0
    ensures
      var h := DeletedRoster(a, b);
      && HistoryOk(h) && C.ValidRows(h, C.RowsFrom(h, 1)) && C.ValidRows(h, AllRows(0, 3))
      && Delivered(me, m, h, C.RowsFrom(h, 1)).roster == Some([a])
      && Delivered(you, m, h, AllRows(0, 3)).roster == Some([a, b])
  {
    var h := DeletedRoster(a, b);
    RowsOfThree(h);
    hide HistoryOk, Deleted, C.RowsFrom, AllRows, Delivered;
    assert IsNewest(h, [1, 3], 0, 1) && IsNewest(h, [1, 2, 3], 0, 2);
    RosterIsNewest(me, m, h, [1, 3], 1);
    RosterIsNewest(you, m, h, [1, 2, 3], 2);
  }

  lemma DeletedNameGives(m: Meta, a: Account)
    ensures
      var h := DeletedName(a);
      && C.ValidRows(h, [1, 3]) && C.ValidRows(h, [1, 2, 3])
      && NewestNaming(h, [1, 3], 1) && NewestNaming(h, [1, 2, 3], 2)
      && NameOf(h, m, 1) == "old" && NameOf(h, m, 2) == "new"
  {}

  /** And the older name. */
  lemma LateNameDiffers(me: Account, you: Account, m: Meta, a: Account)
    requires m.rosterSeq == 0
    ensures
      var h := DeletedName(a);
      && HistoryOk(h) && C.ValidRows(h, C.RowsFrom(h, 1)) && C.ValidRows(h, AllRows(0, 3))
      && Delivered(me, m, h, C.RowsFrom(h, 1)).name == "old"
      && Delivered(you, m, h, AllRows(0, 3)).name == "new"
  {
    var h := DeletedName(a);
    assert |h| == 3 && C.SecondDeleted(h);
    hide *;
    RowsOfThree(h);
    DeletedNameGives(m, a);
    LateDeviceName(me, you, m, h, 0, 2, 1);
  }
}
