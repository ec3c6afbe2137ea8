/**
 Who the devices believe is in a channel.

 The mesh above is complete under any reordering. The lists of participants are
 not: a heartbeat that arrives after the leave it preceded lists its sender
 again. A list says what the device heard last; it is exact, as soon as no signal
 is on its way, when no session's leave overtakes its joins and heartbeats.
 */
module VoiceRosters {
  import opened Wrappers
  import opened Voice
  import opened VoiceMesh
  import opened VoiceRuns

  // --- A list says what was heard last ---------------------------------------------

  /** What signal x tells device n about session s of channel c: that it is there, that it is not, or nothing. */
  function Hears(n: Node, x: Signal, c: Conv, s: Session): Option<bool> {
    if x.conv != c || x.session != s || (n.seat.Some? && n.seat.value.session == s) then None
    else if x.kind.Leave? then Some(false)
    else if x.kind.Join? || x.kind.Here? then Some(true)
    else None
  }

  /** What a step tells device d: by a signal, by its own coming and going, or by starting afresh. */
  function Tells(w: World, a: Action, d: Device, c: Conv, s: Session): Option<bool>
    requires d in w.nodes && Enabled(w, a)
  {
    match a
    case Deliver(e, at) => if e == d then Hears(w.nodes[d], w.nodes[d].inbox[at], c, s) else None
    case JoinVoice(e, conv, id) =>
      if e != d || IsHere(w.nodes[d], conv) then None
      else if conv == c && id == s then Some(true)
      else if w.nodes[d].seat == Some(Seat(c, s)) then Some(false)
      else None
    case LeaveVoice(e) => if e == d && w.nodes[d].seat == Some(Seat(c, s)) then Some(false) else None
    case Reload(e) => if e == d then Some(false) else None
    case Heartbeat(_) => None
  }

  /** What a run told device d last; it starts out knowing nobody. */
  function LastWord(w: World, actions: seq<Action>, d: Device, c: Conv, s: Session, word: bool): bool
    requires d in w.nodes && Run(w, actions).Some?
    decreases |actions|
  {
    if actions == [] then word
    else
      var told := Tells(w, actions[0], d, c, s);
      StepKeepsDevices(w, actions[0]);
      LastWord(Next(w, actions[0]), actions[1..], d, c, s, if told.Some? then told.value else word)
  }

  lemma StepKeepsDevices(w: World, a: Action)
    requires Enabled(w, a)
    ensures Next(w, a).nodes.Keys == w.nodes.Keys
  {
    hide HandleVoiceSignal, Depart, Enter, Beat;
  }

  lemma BroadcastLists(w: World, d: Device, o: Outcome, e: Device)
    requires d in w.nodes && e in w.nodes
    ensures Broadcast(w, d, o).nodes[e].rooms == (if e == d then o.node.rooms else w.nodes[e].rooms)
  {}

  lemma DepartLists(n: Node, c: Conv, s: Session)
    ensures Listed(Depart(n).node.rooms, c, s) <==> Listed(n.rooms, c, s) && n.seat != Some(Seat(c, s))
  {
    if n.seat.Some? { RemoveListed(n.rooms, n.seat.value.conv, n.seat.value.session, c, s); }
    hide RemoveParticipant, Listed;
  }

  lemma EnterLists(n: Node, conv: Conv, id: Session, c: Conv, s: Session)
    ensures Listed(Enter(n, conv, id).node.rooms, c, s) <==> Listed(n.rooms, c, s) || (c == conv && s == id)
  {
    var rooms := SetParticipant(n.rooms, conv, id);
    ConnectAllConnects(Outcome(n.(seat := Some(Seat(conv, id)), rooms := rooms), [Signal(Join, conv, id, 0)]),
                       ParticipantsOf(rooms, conv));
    SetListed(n.rooms, conv, id, c, s);
    hide SetParticipant, Listed, ConnectAll;
  }

  lemma BeatLists(n: Node)
    ensures Beat(n).node.rooms == n.rooms
  {
    if n.seat.Some? {
      var v := n.seat.value;
      ConnectAllConnects(Outcome(n, [Signal(Here, v.conv, v.session, 0)]), ParticipantsOf(n.rooms, v.conv));
    }
    hide ConnectAll;
  }

  lemma SignalLists(n: Node, x: Signal, c: Conv, s: Session)
    ensures
      var heard := Hears(n, x, c, s);
      Listed(HandleVoiceSignal(n, x).node.rooms, c, s) <==> if heard.Some? then heard.value else Listed(n.rooms, c, s)
  {
    SetListed(n.rooms, x.conv, x.session, c, s);
    RemoveListed(n.rooms, x.conv, x.session, c, s);
    hide SetParticipant, RemoveParticipant, Listed;
  }

  /** One step changes a list as it tells. */
  lemma StepLists(w: World, a: Action, d: Device, c: Conv, s: Session)
    requires d in w.nodes && Enabled(w, a)
    ensures d in Next(w, a).nodes
    ensures
      var told := Tells(w, a, d, c, s);
      Listed(Next(w, a).nodes[d].rooms, c, s) <==> if told.Some? then told.value else Listed(w.nodes[d].rooms, c, s)
  {
    StepKeepsDevices(w, a);
    match a
    case JoinVoice(e, conv, id) =>
      if !IsHere(w.nodes[e], conv) {
        JoiningLists(w, e, conv, id, d, c, s);
      }
    case LeaveVoice(e) =>
      BroadcastLists(w, e, Depart(w.nodes[e]), d);
      DepartLists(w.nodes[e], c, s);
    case Heartbeat(e) =>
      BroadcastLists(w, e, Beat(w.nodes[e]), d);
      BeatLists(w.nodes[e]);
    case Reload(e) => BroadcastLists(w, e, Depart(w.nodes[e]), d);
    case Deliver(e, at) =>
      BroadcastLists(w, e, HandleVoiceSignal(Taken(w.nodes[e], at), w.nodes[e].inbox[at]), d);
      SignalLists(Taken(w.nodes[e], at), w.nodes[e].inbox[at], c, s);
      hide HandleVoiceSignal, Broadcast, Listed;
  }

  lemma JoiningLists(w: World, e: Device, conv: Conv, id: Session, d: Device, c: Conv, s: Session)
    requires d in w.nodes && Enabled(w, JoinVoice(e, conv, id)) && !IsHere(w.nodes[e], conv)
    ensures d in Next(w, JoinVoice(e, conv, id)).nodes
    ensures
      var told := Tells(w, JoinVoice(e, conv, id), d, c, s);
      Listed(Next(w, JoinVoice(e, conv, id)).nodes[d].rooms, c, s)
      <==> if told.Some? then told.value else Listed(w.nodes[d].rooms, c, s)
  {
    StepKeepsDevices(w, JoinVoice(e, conv, id));
    var w1 := if w.nodes[e].seat.Some? then Broadcast(w, e, Depart(w.nodes[e])) else w;
    BroadcastLists(w, e, Depart(w.nodes[e]), d);
    BroadcastLists(w, e, Depart(w.nodes[e]), e);
    DepartLists(w.nodes[e], c, s);
    BroadcastLists(w1, e, Enter(w1.nodes[e], conv, id), d);
    EnterLists(w1.nodes[e], conv, id, c, s);
    hide Broadcast, Depart, Enter, Listed;
  }

  /**
   On every run, in order or not, a device lists a session exactly when what it heard of it
   last was that it is there.
   */
  lemma {:induction false} ListsSayTheLastWord(w: World, actions: seq<Action>, d: Device, c: Conv, s: Session)
    requires d in w.nodes && Run(w, actions).Some?
    ensures d in Run(w, actions).value.nodes
    ensures Listed(Run(w, actions).value.nodes[d].rooms, c, s)
            <==> LastWord(w, actions, d, c, s, Listed(w.nodes[d].rooms, c, s))
    decreases |actions|
  {
    hide Listed, Tells, Next, Enabled;
    if actions != [] {
      StepLists(w, actions[0], d, c, s);
      ListsSayTheLastWord(Next(w, actions[0]), actions[1..], d, c, s);
    }
  }

  // --- What a list looks like ------------------------------------------------------------

  predicate NoRepeats(list: seq<Session>) {
    forall i, j :: 0 <= i < j < |list| ==> list[i] != list[j]
  }

  /** No list is empty, and none names a session twice. */
  ghost predicate Clean(rooms: Rooms) {
    forall c :: c in rooms ==> rooms[c] != [] && NoRepeats(rooms[c])
  }

  /** The others keep their order. */
  lemma {:induction false} WithoutKeeps(list: seq<Session>, s: Session)
    ensures NoRepeats(list) ==> NoRepeats(Without(list, s))
    ensures s !in list ==> Without(list, s) == list
    decreases |list|
  {
    if list != [] {
      var rest := Without(list[1..], s);
      WithoutKeeps(list[1..], s);
      hide Without;
      if NoRepeats(list) {
        assert NoRepeats(list[1..]);
        assert list[0] !in list[1..];
        assert NoRepeats([list[0]] + rest);
      }
      WithoutFirst(list, s);
    }
  }

  lemma WithoutFirst(list: seq<Session>, s: Session)
    requires list != []
    ensures Without(list, s) == (if list[0] == s then [] else [list[0]]) + Without(list[1..], s)
    ensures list == [list[0]] + list[1..]
  {}

  /** A session that is set is the last of its list, once; the other lists stay. */
  lemma SetGoesLast(rooms: Rooms, c: Conv, s: Session)
    requires Clean(rooms)
    ensures
      var after := SetParticipant(rooms, c, s);
      && Clean(after) && c in after && after[c][|after[c]| - 1] == s
      && (!Listed(rooms, c, s) ==> after[c] == ParticipantsOf(rooms, c) + [s])
      && forall d :: d != c ==> (d in after <==> d in rooms) && (d in rooms ==> after[d] == rooms[d])
  {
    var list := ParticipantsOf(rooms, c);
    WithoutKeeps(list, s);
    hide Without;
    assert NoRepeats(Without(list, s) + [s]);
  }

  lemma RemoveStaysClean(rooms: Rooms, c: Conv, s: Session)
    requires Clean(rooms)
    ensures Clean(RemoveParticipant(rooms, c, s))
  {
    WithoutKeeps(ParticipantsOf(rooms, c), s);
    hide Without;
  }

  lemma StepStaysClean(w: World, a: Action, d: Device)
    requires d in w.nodes && Enabled(w, a) && Clean(w.nodes[d].rooms)
    ensures d in Next(w, a).nodes && Clean(Next(w, a).nodes[d].rooms)
  {
    StepKeepsDevices(w, a);
    hide Clean, SetParticipant, RemoveParticipant;
    match a
    case JoinVoice(e, conv, id) =>
      if !IsHere(w.nodes[e], conv) { JoiningStaysClean(w, e, conv, id, d); }
    case LeaveVoice(e) =>
      BroadcastLists(w, e, Depart(w.nodes[e]), d);
      DepartStaysClean(w.nodes[e], e == d);
    case Heartbeat(e) =>
      BroadcastLists(w, e, Beat(w.nodes[e]), d);
      BeatLists(w.nodes[e]);
    case Reload(e) =>
      BroadcastLists(w, e, Depart(w.nodes[e]), d);
      NothingIsClean();
    case Deliver(e, at) =>
      var x := w.nodes[e].inbox[at];
      BroadcastLists(w, e, HandleVoiceSignal(Taken(w.nodes[e], at), x), d);
      if e == d {
        SetGoesLast(w.nodes[e].rooms, x.conv, x.session);
        RemoveStaysClean(w.nodes[e].rooms, x.conv, x.session);
      }
  }

  lemma NothingIsClean()
    ensures Clean(map[])
  {}

  lemma DepartStaysClean(n: Node, clean: bool)
    requires clean ==> Clean(n.rooms)
    ensures clean ==> Clean(Depart(n).node.rooms)
  {
    if clean && n.seat.Some? { RemoveStaysClean(n.rooms, n.seat.value.conv, n.seat.value.session); }
    hide RemoveParticipant, Clean;
  }

  lemma EnterStaysClean(n: Node, conv: Conv, id: Session, clean: bool)
    requires clean ==> Clean(n.rooms)
    ensures clean ==> Clean(Enter(n, conv, id).node.rooms)
  {
    var rooms := SetParticipant(n.rooms, conv, id);
    if clean { SetGoesLast(n.rooms, conv, id); }
    ConnectAllConnects(Outcome(n.(seat := Some(Seat(conv, id)), rooms := rooms), [Signal(Join, conv, id, 0)]),
                       ParticipantsOf(rooms, conv));
    hide SetParticipant, ConnectAll, Clean;
  }

  lemma JoiningStaysClean(w: World, e: Device, conv: Conv, id: Session, d: Device)
    requires d in w.nodes && Enabled(w, JoinVoice(e, conv, id)) && !IsHere(w.nodes[e], conv) && Clean(w.nodes[d].rooms)
    ensures d in Next(w, JoinVoice(e, conv, id)).nodes && Clean(Next(w, JoinVoice(e, conv, id)).nodes[d].rooms)
  {
    var w1 := if w.nodes[e].seat.Some? then Broadcast(w, e, Depart(w.nodes[e])) else w;
    BroadcastLists(w, e, Depart(w.nodes[e]), d);
    BroadcastLists(w, e, Depart(w.nodes[e]), e);
    DepartStaysClean(w.nodes[e], e == d);
    BroadcastLists(w1, e, Enter(w1.nodes[e], conv, id), d);
    EnterStaysClean(w1.nodes[e], conv, id, e == d);
    hide Broadcast, Depart, Enter, Clean;
  }

  /** On every run a device's lists name nobody twice, and there is none that is empty. */
  lemma {:induction false} ListsStayClean(w: World, actions: seq<Action>, d: Device)
    requires d in w.nodes && Run(w, actions).Some? && Clean(w.nodes[d].rooms)
    ensures d in Run(w, actions).value.nodes && Clean(Run(w, actions).value.nodes[d].rooms)
    decreases |actions|
  {
    hide Clean, Next, Enabled;
    if actions != [] {
      StepStaysClean(w, actions[0], d);
      ListsStayClean(Next(w, actions[0]), actions[1..], d);
    }
  }

  /** A device in a channel lists its own session there. */
  predicate RoomsHaveOwn(n: Node) {
    n.seat.Some? ==> Listed(n.rooms, n.seat.value.conv, n.seat.value.session)
  }

  ghost predicate OwnListed(w: World) {
    forall d :: d in w.nodes ==> RoomsHaveOwn(w.nodes[d])
  }

  lemma StepKeepsOwn(w: World, a: Action)
    requires Enabled(w, a) && OwnListed(w)
    ensures OwnListed(Next(w, a))
  {
    StepKeepsDevices(w, a);
    forall d | d in Next(w, a).nodes
      ensures RoomsHaveOwn(Next(w, a).nodes[d])
    {
      assert RoomsHaveOwn(w.nodes[d]);
      SeatAfter(w, a, d);
      var n := Next(w, a).nodes[d];
      hide Next, Listed, Enabled;
      if n.seat.Some? {
        StepLists(w, a, d, n.seat.value.conv, n.seat.value.session);
      }
    }
  }

  /** A device keeps its seat, or gets up, or takes the one it asked for. */
  lemma SeatAfter(w: World, a: Action, d: Device)
    requires d in w.nodes && Enabled(w, a)
    ensures d in Next(w, a).nodes
    ensures
      var was, now := w.nodes[d].seat, Next(w, a).nodes[d].seat;
      now.Some? ==>
        if now == was then Tells(w, a, d, now.value.conv, now.value.session) != Some(false)
        else Tells(w, a, d, now.value.conv, now.value.session) == Some(true)
  {
    StepKeepsDevices(w, a);
    match a
    case JoinVoice(e, conv, id) =>
      if e == d && !IsHere(w.nodes[d], conv) {
        var n := if w.nodes[d].seat.Some? then Broadcast(w, d, Depart(w.nodes[d])).nodes[d] else w.nodes[d];
        EnterSeats(n, conv, id);
      }
      hide Depart, Enter;
    case Heartbeat(e) => BeatSeats(w.nodes[e]);
    case LeaveVoice(e) =>
    case Reload(e) => hide Depart;
    case Deliver(e, at) => HandlingSeats(Taken(w.nodes[e], at), w.nodes[e].inbox[at]); hide HandleVoiceSignal;
  }

  lemma EnterSeats(n: Node, conv: Conv, id: Session)
    ensures Enter(n, conv, id).node.seat == Some(Seat(conv, id))
  {
    var rooms := SetParticipant(n.rooms, conv, id);
    ConnectAllConnects(Outcome(n.(seat := Some(Seat(conv, id)), rooms := rooms), [Signal(Join, conv, id, 0)]),
                       ParticipantsOf(rooms, conv));
    hide SetParticipant, ConnectAll;
  }

  lemma BeatSeats(n: Node)
    ensures Beat(n).node.seat == n.seat
  {
    if n.seat.Some? {
      var v := n.seat.value;
      ConnectAllConnects(Outcome(n, [Signal(Here, v.conv, v.session, 0)]), ParticipantsOf(n.rooms, v.conv));
    }
    hide ConnectAll;
  }

  lemma HandlingSeats(n: Node, x: Signal)
    ensures HandleVoiceSignal(n, x).node.seat == n.seat
  {
    hide SetParticipant, RemoveParticipant;
  }

  lemma {:induction false} RunKeepsOwn(w: World, actions: seq<Action>)
    requires OwnListed(w) && Run(w, actions).Some?
    ensures OwnListed(Run(w, actions).value)
    decreases |actions|
  {
    hide OwnListed, Next, Enabled;
    if actions != [] {
      StepKeepsOwn(w, actions[0]);
      RunKeepsOwn(Next(w, actions[0]), actions[1..]);
    }
  }

  // --- Leaves that overtake nothing ---------------------------------------------------

  predicate Announces(x: Signal, s: Session, offers: bool) {
    x.session == s && (x.kind.Join? || x.kind.Here? || (offers && x.kind.Offer?))
  }

  /** A session's leave is taken after its joins and heartbeats and, if they matter, its offers. */
  predicate Orderly(w: World, a: Action, offers: bool) {
    match a
    case Deliver(d, at) =>
      d in w.nodes && at < |w.nodes[d].inbox|
      && var q := w.nodes[d].inbox;
         q[at].kind.Leave? ==> forall j :: 0 <= j < |q| ==> !Announces(q[j], q[at].session, offers)
    case _ => true
  }

  predicate OrderlyRun(w: World, actions: seq<Action>, offers: bool)
    decreases |actions|
  {
    actions == []
    || (Enabled(w, actions[0]) && Orderly(w, actions[0], offers)
        && OrderlyRun(Next(w, actions[0]), actions[1..], offers))
  }

  // --- The invariant ------------------------------------------------------------

  /** A leave of session s is in q. */
  predicate LeaveIn(q: seq<Signal>, s: Session) {
    exists j :: 0 <= j < |q| && q[j].kind.Leave? && q[j].session == s
  }

  /** Signals that announce a session that is gone have its leave beside them. */
  ghost predicate QueueTidy(w: World, q: seq<Signal>, offers: bool) {
    forall i :: 0 <= i < |q| && Announces(q[i], q[i].session, offers) && !Seated(w, q[i].session) ==>
      LeaveIn(q, q[i].session)
  }

  /** A listed session is there, or its leave is on its way. */
  ghost predicate RoomsTidy(w: World, n: Node) {
    && (forall c, s :: Listed(n.rooms, c, s) ==>
          s in w.used && w.used[s] == c && (Seated(w, s) || LeaveIn(n.inbox, s)))
    && (n.seat.Some? ==> Listed(n.rooms, n.seat.value.conv, n.seat.value.session))
  }

  ghost predicate Tidy(w: World, offers: bool) {
    && Inv(w)
    && forall d :: d in w.nodes ==> QueueTidy(w, w.nodes[d].inbox, offers) && RoomsTidy(w, w.nodes[d])
  }

  // --- Queues -------------------------------------------------------------------

  lemma LeaveStaysIn(q: seq<Signal>, s: Session, sent: seq<Signal>)
    requires LeaveIn(q, s)
    ensures LeaveIn(q + sent, s)
  {
    var j :| 0 <= j < |q| && q[j].kind.Leave? && q[j].session == s;
    assert (q + sent)[j] == q[j];
  }

  /** New signals of sessions that are there, and no fewer sessions there, keep a queue tidy. */
  lemma GrowingKeepsQueue(w: World, w1: World, q: seq<Signal>, sent: seq<Signal>, offers: bool)
    requires QueueTidy(w, q, offers)
    requires forall s :: Seated(w, s) ==> Seated(w1, s)
    requires forall x :: x in sent ==> Seated(w1, x.session)
    ensures QueueTidy(w1, q + sent, offers)
  {
    var r := q + sent;
    assert forall k :: |q| <= k < |r| ==> r[k] in sent;
    hide Seated;
    forall i | 0 <= i < |r| && Announces(r[i], r[i].session, offers) && !Seated(w1, r[i].session)
      ensures LeaveIn(r, r[i].session)
    {
      LeaveStaysIn(q, q[i].session, sent);
    }
  }

  /** A leave joins every queue over its session. */
  lemma LeavingKeepsQueue(w: World, w1: World, q: seq<Signal>, x: Signal, offers: bool)
    requires QueueTidy(w, q, offers) && x.kind.Leave?
    requires forall s :: Seated(w, s) && s != x.session ==> Seated(w1, s)
    ensures QueueTidy(w1, q + [x], offers)
    ensures LeaveIn(q + [x], x.session)
  {
    var r := q + [x];
    assert r[|q|] == x;
    hide Seated;
    forall i | 0 <= i < |r| && Announces(r[i], r[i].session, offers) && !Seated(w1, r[i].session)
      ensures LeaveIn(r, r[i].session)
    {
      if q[i].session != x.session {
        LeaveStaysIn(q, q[i].session, [x]);
      }
    }
  }

  function Rest(q: seq<Signal>, at: nat): (r: seq<Signal>)
    requires at < |q|
    ensures |r| == |q| - 1
    ensures forall i :: 0 <= i < |r| ==> r[i] == q[if i < at then i else i + 1]
  {
    q[..at] + q[at + 1..]
  }

  /** A leave stays in the queue unless it is what was taken. */
  lemma LeaveStays(q: seq<Signal>, at: nat, s: Session)
    requires at < |q| && LeaveIn(q, s) && !(q[at].kind.Leave? && q[at].session == s)
    ensures LeaveIn(Rest(q, at), s)
  {
    var j :| 0 <= j < |q| && q[j].kind.Leave? && q[j].session == s;
    assert Rest(q, at)[if j < at then j else j - 1] == q[j];
  }

  /** Taking a signal leaves the queue tidy if no leave overtakes what announces its session. */
  lemma TakingKeepsQueue(w: World, q: seq<Signal>, at: nat, offers: bool)
    requires QueueTidy(w, q, offers) && at < |q|
    requires q[at].kind.Leave? ==> forall j :: 0 <= j < |q| ==> !Announces(q[j], q[at].session, offers)
    ensures QueueTidy(w, Rest(q, at), offers)
    ensures Announces(q[at], q[at].session, offers) && !Seated(w, q[at].session) ==> LeaveIn(Rest(q, at), q[at].session)
  {
    var r := Rest(q, at);
    hide Seated, LeaveIn, Rest;
    forall i | 0 <= i < |r| && Announces(r[i], r[i].session, offers) && !Seated(w, r[i].session)
      ensures LeaveIn(r, r[i].session)
    {
      var k := if i < at then i else i + 1;
      assert r[i] == q[k];
      LeaveStays(q, at, q[k].session);
    }
    if Announces(q[at], q[at].session, offers) && !Seated(w, q[at].session) {
      LeaveStays(q, at, q[at].session);
    }
  }

  // --- Every orderly step keeps the lists tidy --------------------------------------

  lemma StayingSeats(w: World, d: Device, o: Outcome)
    requires d in w.nodes && o.node.seat == w.nodes[d].seat
    ensures forall s :: Seated(w, s) <==> Seated(Broadcast(w, d, o), s)
  {
    var w1 := Broadcast(w, d, o);
    forall s ensures Seated(w, s) <==> Seated(w1, s) {
      if Seated(w, s) {
        var e :| e in w.nodes && w.nodes[e].seat.Some? && w.nodes[e].seat.value.session == s;
        assert w1.nodes[e].seat == w.nodes[e].seat;
      }
      if Seated(w1, s) {
        var e :| e in w1.nodes && w1.nodes[e].seat.Some? && w1.nodes[e].seat.value.session == s;
        assert w1.nodes[e].seat == w.nodes[e].seat;
      }
    }
  }

  lemma RoomsGrow(w: World, w1: World, n: Node, sent: seq<Signal>)
    requires RoomsTidy(w, n)
    requires forall s :: s in w.used ==> s in w1.used && w1.used[s] == w.used[s]
    requires forall s :: Seated(w, s) ==> Seated(w1, s) || LeaveIn(n.inbox + sent, s)
    ensures RoomsTidy(w1, Given(n, sent))
  {
    hide Seated, Listed;
    forall s | LeaveIn(n.inbox, s) ensures LeaveIn(n.inbox + sent, s) {
      LeaveStaysIn(n.inbox, s, sent);
    }
    hide LeaveIn;
  }

  /** All a device that keeps its seat sends is its own, and no leave. */
  ghost predicate OwnSignals(n: Node, sent: seq<Signal>) {
    forall x :: x in sent ==> n.seat.Some? && x.session == n.seat.value.session && !x.kind.Leave?
  }

  lemma StayingKeepsTidy(w: World, d: Device, o: Outcome, offers: bool)
    requires Tidy(w, offers) && Stays(w, d, o) && OwnSignals(w.nodes[d], o.sent)
    requires QueueTidy(w, o.node.inbox, offers) && RoomsTidy(w, o.node)
    requires Inv(Broadcast(w, d, o))
    ensures Tidy(Broadcast(w, d, o), offers)
  {
    var w1 := Broadcast(w, d, o);
    StayingSeats(w, d, o);
    assert forall x :: x in o.sent ==> Seated(w, x.session);
    forall e | e in w1.nodes ensures QueueTidy(w1, w1.nodes[e].inbox, offers) && RoomsTidy(w1, w1.nodes[e]) {
      var n := if e == d then o.node else w.nodes[e];
      BroadcastGives(w, d, o, e);
      forall y | y in n.inbox ensures SignalOk(w, y) {
        assert y in w.nodes[e].inbox;
      }
      hide QueueTidy, RoomsTidy, Seated, Broadcast, Inv;
      GrowingKeepsQueue(w, w1, n.inbox, o.sent, offers);
      RoomsGrow(w, w1, n, o.sent);
    }
    hide QueueTidy, RoomsTidy, Broadcast, Inv;
  }

  lemma HandlingSendsOwn(n: Node, x: Signal)
    ensures OwnSignals(n, HandleVoiceSignal(n, x).sent)
  {
    hide SetParticipant, RemoveParticipant;
  }

  /** One listed session after one signal: it is there, or its leave still comes. */
  lemma ListedStillTidy(w: World, n: Node, at: nat, c: Conv, s: Session, offers: bool)
    requires QueueTidy(w, n.inbox, offers) && at < |n.inbox| && SignalOk(w, n.inbox[at])
    requires Listed(n.rooms, c, s) ==> s in w.used && w.used[s] == c && (Seated(w, s) || LeaveIn(n.inbox, s))
    requires n.inbox[at].kind.Leave? ==>
      forall j :: 0 <= j < |n.inbox| ==> !Announces(n.inbox[j], n.inbox[at].session, offers)
    requires Listed(HandleVoiceSignal(Taken(n, at), n.inbox[at]).node.rooms, c, s)
    requires n.seat.Some? ==> Seated(w, n.seat.value.session)
    ensures s in w.used && w.used[s] == c && (Seated(w, s) || LeaveIn(Rest(n.inbox, at), s))
  {
    var x := n.inbox[at];
    TakingKeepsQueue(w, n.inbox, at, offers);
    if n.seat.Some? && x.session == n.seat.value.session {
      assert Listed(n.rooms, c, s);
    } else {
      HandleLists(Taken(n, at), x, c, s);
    }
    hide HandleVoiceSignal, Listed, QueueTidy, Rest, Seated, LeaveIn;
    if LeaveIn(n.inbox, s) && !(x.kind.Leave? && x.session == s) {
      LeaveStays(n.inbox, at, s);
    }
  }

  lemma HandlingKeepsRooms(w: World, n: Node, at: nat, offers: bool)
    requires QueueTidy(w, n.inbox, offers) && RoomsTidy(w, n) && at < |n.inbox| && SignalOk(w, n.inbox[at])
    requires n.inbox[at].kind.Leave? ==>
      forall j :: 0 <= j < |n.inbox| ==> !Announces(n.inbox[j], n.inbox[at].session, offers)
    requires n.seat.Some? ==> Seated(w, n.seat.value.session)
    ensures RoomsTidy(w, HandleVoiceSignal(Taken(n, at), n.inbox[at]).node)
  {
    var x := n.inbox[at];
    var r := HandleVoiceSignal(Taken(n, at), x).node;
    HandlingCostsLess(0, Taken(n, at), x);
    if n.seat.Some? && x.session != n.seat.value.session {
      HandleLists(Taken(n, at), x, n.seat.value.conv, n.seat.value.session);
    }
    assert r.inbox == Rest(n.inbox, at);
    assert n.seat.Some? ==> Listed(r.rooms, n.seat.value.conv, n.seat.value.session);
    hide HandleVoiceSignal, Listed, QueueTidy, Rest, Seated, LeaveIn;
    forall c, s | Listed(r.rooms, c, s)
      ensures s in w.used && w.used[s] == c && (Seated(w, s) || LeaveIn(r.inbox, s))
    {
      ListedStillTidy(w, n, at, c, s, offers);
    }
  }

  lemma ArrivalKeepsTidy(w: World, d: Device, at: nat, offers: bool)
    requires Tidy(w, offers) && Enabled(w, Deliver(d, at)) && Orderly(w, Deliver(d, at), offers)
    ensures Tidy(Arrive(w, d, at), offers)
  {
    var n := w.nodes[d];
    var o := HandleVoiceSignal(Taken(n, at), n.inbox[at]);
    ArrivalStays(w, d, at);
    ArrivalKeeps(w, d, at);
    HandlingSendsOwn(Taken(n, at), n.inbox[at]);
    HandlingCostsLess(0, Taken(n, at), n.inbox[at]);
    TakingKeepsQueue(w, n.inbox, at, offers);
    assert o.node.inbox == Rest(n.inbox, at);
    assert SignalOk(w, n.inbox[at]);
    hide HandleVoiceSignal, RoomsTidy, Stays, Inv, Broadcast, QueueTidy;
    HandlingKeepsRooms(w, n, at, offers);
    StayingKeepsTidy(w, d, o, offers);
  }

  lemma BeatKeepsTidy(w: World, d: Device, offers: bool)
    requires Tidy(w, offers) && d in w.nodes
    ensures Tidy(Broadcast(w, d, Beat(w.nodes[d])), offers)
  {
    var n := w.nodes[d];
    var o := Beat(n);
    if n.seat.None? {
      assert forall e :: e in w.nodes ==> Given(w.nodes[e], []) == w.nodes[e];
      assert Broadcast(w, d, o) == w;
    } else {
      var v := n.seat.value;
      BeatStays(w, d);
      BeatKeeps(w, d);
      ConnectAllConnects(Outcome(n, [Signal(Here, v.conv, v.session, 0)]), ParticipantsOf(n.rooms, v.conv));
      hide RoomsTidy, Stays, Inv, Broadcast, QueueTidy;
      assert RoomsTidy(w, n) ==> RoomsTidy(w, o.node) by {
        assert RoomsTidy(w, n) ==> RoomsTidy(w, n.(peers := o.node.peers)) by {
          PeersDoNotMatter(w, n, o.node.peers);
        }
        assert o.node == n.(peers := o.node.peers);
      }
      StayingKeepsTidy(w, d, o, offers);
    }
  }

  lemma PeersDoNotMatter(w: World, n: Node, peers: map<Session, PeerState>)
    requires RoomsTidy(w, n)
    ensures RoomsTidy(w, n.(peers := peers))
  {}

  lemma DepartureKeepsTidy(w: World, d: Device, offers: bool)
    requires Tidy(w, offers) && d in w.nodes
    ensures Tidy(Broadcast(w, d, Depart(w.nodes[d])), offers)
  {
    var n := w.nodes[d];
    var o := Depart(n);
    var w1 := Broadcast(w, d, o);
    DepartureKeeps(w, d);
    if n.seat.None? {
      assert forall e :: e in w.nodes ==> Given(w.nodes[e], []) == w.nodes[e];
      assert w1 == w;
    } else {
      var v := n.seat.value;
      assert Seated(w, v.session);
      DepartureSeats(w, d);
      forall e | e in w1.nodes ensures QueueTidy(w1, w1.nodes[e].inbox, offers) && RoomsTidy(w1, w1.nodes[e]) {
        var m := if e == d then o.node else w.nodes[e];
        BroadcastGives(w, d, o, e);
        forall y | y in m.inbox ensures SignalOk(w, y) {
          assert y in w.nodes[e].inbox;
        }
        assert RoomsTidy(w, w.nodes[e]);
        DepartingKeepsRooms(w, n);
        hide QueueTidy, RoomsTidy, Seated, Broadcast, Inv, RemoveParticipant;
        LeavingKeepsQueue(w, w1, m.inbox, o.sent[0], offers);
        RoomsGrow(w, w1, m, o.sent);
      }
      hide QueueTidy, RoomsTidy, Broadcast, Inv;
    }
  }

  lemma DepartureSeats(w: World, d: Device)
    requires d in w.nodes && w.nodes[d].seat.Some?
    ensures forall s :: Seated(w, s) && s != w.nodes[d].seat.value.session ==>
              Seated(Broadcast(w, d, Depart(w.nodes[d])), s)
  {
    var w1 := Broadcast(w, d, Depart(w.nodes[d]));
    forall s | Seated(w, s) && s != w.nodes[d].seat.value.session ensures Seated(w1, s) {
      var e :| e in w.nodes && w.nodes[e].seat.Some? && w.nodes[e].seat.value.session == s;
      assert w1.nodes[e].seat == w.nodes[e].seat;
    }
  }

  lemma DepartingKeepsRooms(w: World, n: Node)
    requires RoomsTidy(w, n) && n.seat.Some?
    ensures RoomsTidy(w, Depart(n).node)
  {
    forall c, s | Listed(Depart(n).node.rooms, c, s) ensures Listed(n.rooms, c, s) {
      RemoveListed(n.rooms, n.seat.value.conv, n.seat.value.session, c, s);
    }
    hide RemoveParticipant, Listed, Seated, LeaveIn;
  }

  lemma SittingSeats(w: World, d: Device, c: Conv, s: Session)
    requires d in w.nodes && w.nodes[d].seat.None?
    ensures var w1 := Sit(w, d, c, s);
            w1.nodes.Keys == w.nodes.Keys && Seated(w1, s) && forall t :: Seated(w, t) ==> Seated(w1, t)
  {
    var o := Enter(w.nodes[d], c, s);
    var w1 := Sit(w, d, c, s);
    ConnectAllConnects(Outcome(w.nodes[d].(seat := Some(Seat(c, s)), rooms := SetParticipant(w.nodes[d].rooms, c, s)),
                               [Signal(Join, c, s, 0)]),
                       ParticipantsOf(SetParticipant(w.nodes[d].rooms, c, s), c));
    assert w1.nodes[d].seat == Some(Seat(c, s));
    forall t | Seated(w, t) ensures Seated(w1, t) {
      var e :| e in w.nodes && w.nodes[e].seat.Some? && w.nodes[e].seat.value.session == t;
      assert w1.nodes[e].seat == w.nodes[e].seat;
    }
  }

  lemma EnteringKeepsRooms(w: World, w1: World, n: Node, c: Conv, s: Session)
    requires RoomsTidy(w, n) && n.seat.None? && s !in w.used && w1.used == w.used[s := c]
    requires Seated(w1, s) && forall t :: Seated(w, t) ==> Seated(w1, t)
    ensures RoomsTidy(w1, Enter(n, c, s).node)
  {
    var rooms := SetParticipant(n.rooms, c, s);
    ConnectAllConnects(Outcome(n.(seat := Some(Seat(c, s)), rooms := rooms), [Signal(Join, c, s, 0)]),
                       ParticipantsOf(rooms, c));
    var r := Enter(n, c, s).node;
    assert r.rooms == rooms && r.inbox == n.inbox && r.seat == Some(Seat(c, s));
    forall d, x ensures Listed(rooms, d, x) <==> Listed(n.rooms, d, x) || (d == c && x == s) {
      SetListed(n.rooms, c, s, d, x);
    }
    hide Enter, Listed, SetParticipant, Seated, LeaveIn;
  }

  lemma FreshIsNew(w: World, e: Device, s: Session)
    requires NodesOk(w) && e in w.nodes && s !in w.used
    ensures forall y :: y in w.nodes[e].inbox ==> y.session != s
  {
    forall y | y in w.nodes[e].inbox ensures y.session != s {
      assert SignalOk(w, y);
    }
  }

  lemma SittingKeepsNode(w: World, d: Device, c: Conv, s: Session, e: Device, offers: bool)
    requires NodesOk(w) && d in w.nodes && w.nodes[d].seat.None? && s !in w.used && e in w.nodes
    requires QueueTidy(w, w.nodes[e].inbox, offers) && RoomsTidy(w, w.nodes[e])
    ensures var w1 := Sit(w, d, c, s);
            e in w1.nodes && QueueTidy(w1, w1.nodes[e].inbox, offers) && RoomsTidy(w1, w1.nodes[e])
  {
    var o := Enter(w.nodes[d], c, s);
    var w1 := Sit(w, d, c, s);
    EnterMeans(w.nodes[d], w.used, c, s);
    SittingSeats(w, d, c, s);
    BroadcastGives(w, d, o, e);
    FreshIsNew(w, e, s);
    hide QueueTidy, RoomsTidy, Seated, Broadcast, Enter, NodesOk, NodeOk;
    GrowingKeepsQueue(w, w1, w.nodes[e].inbox, o.sent, offers);
    if e == d {
      EnteringKeepsRooms(w, w1, w.nodes[d], c, s);
      RoomsGrow(w1, w1, o.node, o.sent);
    } else {
      RoomsGrow(w, w1, w.nodes[e], o.sent);
    }
  }

  lemma SittingKeepsTidy(w: World, d: Device, c: Conv, s: Session, offers: bool)
    requires Tidy(w, offers) && d in w.nodes && w.nodes[d].seat.None? && s !in w.used
    ensures Tidy(Sit(w, d, c, s), offers)
  {
    hide QueueTidy, RoomsTidy, NodesOk, PairsOk, Enter;
    SittingKeeps(w, d, c, s);
    SittingSeats(w, d, c, s);
    hide Sit;
    forall e | e in w.nodes
      ensures QueueTidy(Sit(w, d, c, s), Sit(w, d, c, s).nodes[e].inbox, offers)
      ensures RoomsTidy(Sit(w, d, c, s), Sit(w, d, c, s).nodes[e])
    {
      SittingKeepsNode(w, d, c, s, e, offers);
    }
  }

  lemma WipingKeepsTidy(w: World, d: Device, offers: bool)
    requires Tidy(w, offers) && d in w.nodes && w.nodes[d].seat.None?
    ensures Tidy(Wiped(w, d), offers)
  {
    var w1 := Wiped(w, d);
    WipingKeeps(w, d);
    forall s | Seated(w, s) ensures Seated(w1, s) {
      var e :| e in w.nodes && w.nodes[e].seat.Some? && w.nodes[e].seat.value.session == s;
      assert w1.nodes[e].seat == w.nodes[e].seat;
    }
    hide Inv, Seated;
    forall e | e in w1.nodes ensures QueueTidy(w1, w1.nodes[e].inbox, offers) && RoomsTidy(w1, w1.nodes[e]) {
      assert e != d ==> QueueTidy(w, w.nodes[e].inbox, offers) && RoomsTidy(w, w.nodes[e]);
    }
  }

  lemma OrderlyStepKeeps(w: World, a: Action, offers: bool)
    requires Tidy(w, offers) && Enabled(w, a) && Orderly(w, a, offers)
    ensures Tidy(Next(w, a), offers)
  {
    hide Tidy, Broadcast, Depart;
    match a
    case JoinVoice(d, c, s) =>
      if !IsHere(w.nodes[d], c) {
        if w.nodes[d].seat.Some? {
          DepartureKeepsTidy(w, d, offers);
          DepartLeaves(w, d);
          SittingKeepsTidy(Broadcast(w, d, Depart(w.nodes[d])), d, c, s, offers);
        } else {
          SittingKeepsTidy(w, d, c, s, offers);
        }
      }
    case LeaveVoice(d) =>
      DepartureKeepsTidy(w, d, offers);
    case Heartbeat(d) =>
      BeatKeepsTidy(w, d, offers);
    case Reload(d) =>
      DepartureKeepsTidy(w, d, offers);
      DepartLeaves(w, d);
      WipingKeepsTidy(Broadcast(w, d, Depart(w.nodes[d])), d, offers);
    case Deliver(d, at) =>
      ArrivalKeepsTidy(w, d, at, offers);
  }

  lemma {:induction false} OrderlyRunKeeps(w: World, actions: seq<Action>, offers: bool)
    requires Tidy(w, offers) && OrderlyRun(w, actions, offers)
    ensures Run(w, actions).Some? && Tidy(Run(w, actions).value, offers)
    decreases |actions|
  {
    hide Tidy, Next;
    if actions != [] {
      OrderlyStepKeeps(w, actions[0], offers);
      OrderlyRunKeeps(Next(w, actions[0]), actions[1..], offers);
    }
  }

  lemma TidyLists(w: World, d: Device, c: Conv, s: Session)
    requires NodesOk(w) && d in w.nodes && RoomsTidy(w, w.nodes[d]) && w.nodes[d].inbox == []
    requires Listed(w.nodes[d].rooms, c, s)
    ensures exists e :: Joined(w, e, c, s)
  {
    hide Listed;
    var e :| e in w.nodes && w.nodes[e].seat.Some? && w.nodes[e].seat.value.session == s;
    assert NodeOk(w.used, w.nodes[e]);
    assert Joined(w, e, c, s);
  }

  lemma QuietLists(w: World, d: Device, e: Device, c: Conv, s: Session, t: Session)
    requires PairsOk(w) && d in w.nodes && RoomsHaveOwn(w.nodes[d]) && Quiet(w)
    requires Joined(w, e, c, s) && Joined(w, d, c, t)
    ensures Listed(w.nodes[d].rooms, c, s)
  {
    hide Listed;
    if e != d {
      assert PairOk(w.nodes[d], w.nodes[e], c, t, s);
    }
  }

  lemma QuietListsPresent(w: World, d: Device, c: Conv, s: Session)
    requires PairsOk(w) && Quiet(w) && d in w.nodes && IsHere(w.nodes[d], c) && RoomsHaveOwn(w.nodes[d])
    ensures (exists e :: Joined(w, e, c, s)) ==> Listed(w.nodes[d].rooms, c, s)
  {
    hide Listed, PairsOk;
    if e :| Joined(w, e, c, s) {
      QuietLists(w, d, e, c, s, w.nodes[d].seat.value.session);
    }
  }

  /**
   Whatever the order of delivery: once no signal is on its way, a device in the channel
   lists every session that is in it; and a device lists a session, there or not, exactly
   when what it heard of it last, since it was last loaded, was that it is there.
   */
  lemma QuietListsExactly(devices: set<Device>, actions: seq<Action>, d: Device, c: Conv, s: Session)
    requires Run(Start(devices), actions).Some? && d in devices
    requires Quiet(Run(Start(devices), actions).value)
    ensures
      var w := Run(Start(devices), actions).value;
      && d in w.nodes
      && (IsHere(w.nodes[d], c) && (exists e :: Joined(w, e, c, s)) ==> Listed(w.nodes[d].rooms, c, s))
      && (Listed(w.nodes[d].rooms, c, s) <==> LastWord(Start(devices), actions, d, c, s, false))
  {
    var w := Run(Start(devices), actions).value;
    ListsSayTheLastWord(Start(devices), actions, d, c, s);
    assert Inv(Start(devices));
    RunKeeps(Start(devices), actions);
    assert OwnListed(Start(devices));
    RunKeepsOwn(Start(devices), actions);
    assert RoomsHaveOwn(w.nodes[d]);
    hide Run, NodesOk, PairsOk, Listed, LastWord, RoomsHaveOwn;
    if IsHere(w.nodes[d], c) { QuietListsPresent(w, d, c, s); }
  }

  /**
   If no leave overtakes its session's joins and heartbeats, then once no signal is on its
   way a device in the channel lists exactly the sessions that are in it, and no device
   lists a session that has left.
   */
  lemma ListsAreExact(devices: set<Device>, actions: seq<Action>, d: Device, c: Conv, s: Session)
    requires OrderlyRun(Start(devices), actions, false)
    requires Run(Start(devices), actions).Some?
    requires Quiet(Run(Start(devices), actions).value) && d in Run(Start(devices), actions).value.nodes
    ensures var w := Run(Start(devices), actions).value;
            && (Listed(w.nodes[d].rooms, c, s) ==> exists e :: Joined(w, e, c, s))
            && (IsHere(w.nodes[d], c) && (exists e :: Joined(w, e, c, s)) ==> Listed(w.nodes[d].rooms, c, s))
  {
    var w := Run(Start(devices), actions).value;
    assert Tidy(Start(devices), false);
    OrderlyRunKeeps(Start(devices), actions, false);
    assert RoomsTidy(w, w.nodes[d]);
    assert RoomsHaveOwn(w.nodes[d]);
    hide RoomsTidy, NodesOk, PairsOk, Listed, QueueTidy, RoomsHaveOwn;
    if Listed(w.nodes[d].rooms, c, s) {
      TidyLists(w, d, c, s);
    }
    if IsHere(w.nodes[d], c) {
      QuietListsPresent(w, d, c, s);
    }
  }

  // --- Signals in the order they were sent ---------------------------------------------------

  /** A step that takes the oldest signal of its session, if it takes any. */
  predicate InOrder(w: World, a: Action) {
    match a
    case Deliver(d, at) =>
      d in w.nodes && at < |w.nodes[d].inbox|
      && forall j :: 0 <= j < at ==> w.nodes[d].inbox[j].session != w.nodes[d].inbox[at].session
    case _ => true
  }

  predicate InOrderRun(w: World, actions: seq<Action>)
    decreases |actions|
  {
    actions == []
    || (Enabled(w, actions[0]) && InOrder(w, actions[0]) && InOrderRun(Next(w, actions[0]), actions[1..]))
  }

  /** A session's leave is the last of its signals. */
  predicate LeavesLast(q: seq<Signal>) {
    forall i, j :: 0 <= i < j < |q| && q[i].kind.Leave? ==> q[j].session != q[i].session
  }

  ghost predicate AllLeavesLast(w: World) {
    forall d :: d in w.nodes ==> LeavesLast(w.nodes[d].inbox)
  }

  lemma LastGrows(q: seq<Signal>, sent: seq<Signal>)
    requires LeavesLast(q)
    requires |sent| == 1 || forall x :: x in sent ==> !x.kind.Leave?
    requires forall x, y :: x in sent && y in q && y.kind.Leave? ==> y.session != x.session
    ensures LeavesLast(q + sent)
  {
    var r := q + sent;
    assert forall k :: |q| <= k < |r| ==> r[k] in sent;
    forall i, j | 0 <= i < j < |r| && r[i].kind.Leave? ensures r[j].session != r[i].session {
      assert i < |q| && r[i] in q;
    }
  }

  lemma BroadcastLast(w: World, d: Device, o: Outcome)
    requires d in w.nodes && AllLeavesLast(w) && LeavesLast(o.node.inbox)
    requires forall y :: y in o.node.inbox ==> y in w.nodes[d].inbox
    requires |o.sent| == 1 || forall x :: x in o.sent ==> !x.kind.Leave?
    requires forall e, x, y :: e in w.nodes && x in o.sent && y in w.nodes[e].inbox && y.kind.Leave? ==>
               y.session != x.session
    ensures AllLeavesLast(Broadcast(w, d, o))
  {
    var w1 := Broadcast(w, d, o);
    hide LeavesLast;
    forall e | e in w1.nodes ensures LeavesLast(w1.nodes[e].inbox) {
      var n := if e == d then o.node else w.nodes[e];
      BroadcastGives(w, d, o, e);
      LastGrows(n.inbox, o.sent);
    }
  }

  /** What a seated device sends meets no leave of its own. */
  lemma OwnMeetNoLeave(w: World, d: Device, sent: seq<Signal>)
    requires NodesOk(w) && d in w.nodes
    requires forall x :: x in sent ==> w.nodes[d].seat.Some? && x.session == w.nodes[d].seat.value.session
    ensures forall e, x, y :: e in w.nodes && x in sent && y in w.nodes[e].inbox && y.kind.Leave? ==>
              y.session != x.session
  {
    forall e, x, y | e in w.nodes && x in sent && y in w.nodes[e].inbox && y.kind.Leave?
      ensures y.session != x.session
    {
      assert SignalOk(w, y);
      assert Seated(w, x.session);
    }
  }

  lemma DepartingLast(w: World, d: Device)
    requires NodesOk(w) && d in w.nodes && AllLeavesLast(w)
    ensures AllLeavesLast(Broadcast(w, d, Depart(w.nodes[d])))
  {
    OwnMeetNoLeave(w, d, Depart(w.nodes[d]).sent);
    hide NodesOk, LeavesLast, AllLeavesLast, RemoveParticipant, Broadcast;
    assert LeavesLast(w.nodes[d].inbox) by { LastAt(w, d); }
    BroadcastLast(w, d, Depart(w.nodes[d]));
  }

  lemma LastAt(w: World, d: Device)
    requires AllLeavesLast(w) && d in w.nodes
    ensures LeavesLast(w.nodes[d].inbox)
  {}

  lemma SittingLast(w: World, d: Device, c: Conv, s: Session)
    requires NodesOk(w) && d in w.nodes && w.nodes[d].seat.None? && s !in w.used && AllLeavesLast(w)
    ensures AllLeavesLast(Sit(w, d, c, s))
  {
    var o := Enter(w.nodes[d], c, s);
    EnterMeans(w.nodes[d], w.used, c, s);
    forall e, x, y | e in w.nodes && x in o.sent && y in w.nodes[e].inbox && y.kind.Leave?
      ensures y.session != x.session
    {
      assert SignalOk(w, y);
    }
    LastAt(w, d);
    hide NodesOk, LeavesLast, Enter, Broadcast;
    assert forall x :: x in o.sent ==> !x.kind.Leave?;
    BroadcastLast(w, d, o);
  }

  lemma BeatSendsOwn(n: Node)
    ensures forall x :: x in Beat(n).sent ==>
              n.seat.Some? && x.session == n.seat.value.session && !x.kind.Leave?
    ensures Beat(n).node.inbox == n.inbox
  {
    if n.seat.Some? {
      var v := n.seat.value;
      var o := Outcome(n, [Signal(Here, v.conv, v.session, 0)]);
      ConnectAllConnects(o, ParticipantsOf(n.rooms, v.conv));
      hide ConnectAll;
      forall x | x in Beat(n).sent ensures x.session == v.session && !x.kind.Leave? {
        if x in o.sent { assert x == o.sent[0]; }
      }
    }
  }

  lemma ArrivingLast(w: World, d: Device, at: nat)
    requires NodesOk(w) && Enabled(w, Deliver(d, at)) && AllLeavesLast(w)
    ensures AllLeavesLast(Arrive(w, d, at))
  {
    var n := w.nodes[d];
    var o := HandleVoiceSignal(Taken(n, at), n.inbox[at]);
    HandlingSendsOwn(Taken(n, at), n.inbox[at]);
    HandlingCostsLess(0, Taken(n, at), n.inbox[at]);
    OwnMeetNoLeave(w, d, o.sent);
    LastAt(w, d);
    assert o.node.inbox == Rest(n.inbox, at) && LeavesLast(o.node.inbox);
    forall y | y in o.node.inbox ensures y in n.inbox {
      InRest(n.inbox, at, y);
    }
    hide NodesOk, LeavesLast, HandleVoiceSignal, Broadcast;
    BroadcastLast(w, d, o);
  }

  lemma LastStep(w: World, a: Action)
    requires Inv(w) && Enabled(w, a) && AllLeavesLast(w)
    ensures AllLeavesLast(Next(w, a))
  {
    hide NodesOk, PairsOk, AllLeavesLast, Broadcast, Depart;
    match a
    case JoinVoice(d, c, s) =>
      if !IsHere(w.nodes[d], c) {
        if w.nodes[d].seat.Some? {
          DepartureKeeps(w, d);
          DepartLeaves(w, d);
          DepartingLast(w, d);
          SittingLast(Broadcast(w, d, Depart(w.nodes[d])), d, c, s);
        } else {
          SittingLast(w, d, c, s);
        }
      }
    case LeaveVoice(d) => DepartingLast(w, d);
    case Heartbeat(d) =>
      BeatSendsOwn(w.nodes[d]);
      OwnMeetNoLeave(w, d, Beat(w.nodes[d]).sent);
      LastAt(w, d);
      BroadcastLast(w, d, Beat(w.nodes[d]));
    case Reload(d) =>
      DepartLeaves(w, d);
      DepartingLast(w, d);
      WipedLast(Broadcast(w, d, Depart(w.nodes[d])), d);
    case Deliver(d, at) => ArrivingLast(w, d, at);
  }

  lemma WipedLast(w: World, d: Device)
    requires AllLeavesLast(w) && d in w.nodes
    ensures AllLeavesLast(Wiped(w, d))
  {}

  /** Delivery in order lets no leave overtake anything, so the lists are exact then, too. */
  lemma {:induction false} InOrderIsOrderly(w: World, actions: seq<Action>)
    requires Inv(w) && AllLeavesLast(w) && InOrderRun(w, actions)
    ensures OrderlyRun(w, actions, true)
    decreases |actions|
  {
    hide Inv, Next;
    if actions != [] {
      StepKeeps(w, actions[0]);
      LastStep(w, actions[0]);
      if actions[0].Deliver? { LastAt(w, actions[0].d); }
      InOrderIsOrderly(Next(w, actions[0]), actions[1..]);
    }
  }

  // --- Why the order matters ----------------------------------------------------

  function Pair(first: Node, second: Node, used: map<Session, Conv>): World {
    World(map[1 := first, 2 := second], used)
  }

  lemma FirstBroadcasts(first: Node, second: Node, used: map<Session, Conv>, o: Outcome)
    ensures Broadcast(Pair(first, second, used), 1, o) == Pair(Given(o.node, o.sent), Given(second, o.sent), used)
  {
    var w := Pair(first, second, used);
    BroadcastGives(w, 1, o, 1);
    BroadcastGives(w, 1, o, 2);
    hide Broadcast, Given;
    assert Broadcast(w, 1, o).nodes == map[1 := Given(o.node, o.sent), 2 := Given(second, o.sent)];
  }

  lemma SecondBroadcasts(first: Node, second: Node, used: map<Session, Conv>, o: Outcome)
    ensures Broadcast(Pair(first, second, used), 2, o) == Pair(Given(first, o.sent), Given(o.node, o.sent), used)
  {
    var w := Pair(first, second, used);
    BroadcastGives(w, 2, o, 1);
    BroadcastGives(w, 2, o, 2);
    hide Broadcast, Given;
    assert Broadcast(w, 2, o).nodes == map[1 := Given(first, o.sent), 2 := Given(o.node, o.sent)];
  }

  lemma GivenNothing(n: Node)
    ensures Given(n, []) == n
  {}

  function Empty(inbox: seq<Signal>): Node {
    Node(None, map[], map[], inbox)
  }

  lemma JoinsAlone(join: Signal)
    requires join == Signal(Join, "g", 10, 0)
    ensures Enter(Empty([]), "g", 10) == Outcome(Node(Some(Seat("g", 10)), map["g" := [10]], map[], []), [join])
  {
    var o := Outcome(Node(Some(Seat("g", 10)), map["g" := [10]], map[], []), [join]);
    var rooms := SetParticipant(map[], "g", 10);
    assert Without([], 10) + [10] == [10];
    assert rooms == map["g" := [10]];
    assert MaybeConnect(o, 10) == o;
    assert ConnectAll(o, [10][1..]) == o;
    assert ConnectAll(o, [10]) == o;
  }

  lemma LeavesAlone(q: seq<Signal>)
    ensures Depart(Node(Some(Seat("g", 10)), map["g" := [10]], map[], q))
            == Outcome(Empty(q), [Signal(Leave, "g", 10, 0)])
  {
    assert [10][1..] == [] && Without([10], 10) == [];
    assert RemoveParticipant(map["g" := [10]], "g", 10) == map[];
  }

  lemma HearsLeave(q: seq<Signal>)
    ensures HandleVoiceSignal(Empty(q), Signal(Leave, "g", 10, 0)) == Outcome(Empty(q), [])
  {
    assert RemoveParticipant(map[], "g", 10) == map[];
    assert Empty(q).peers - {10} == Empty(q).peers;
  }

  lemma HearsJoin()
    ensures HandleVoiceSignal(Empty([]), Signal(Join, "g", 10, 0))
            == Outcome(Node(None, map["g" := [10]], map[], []), [])
  {
    assert Without([], 10) + [10] == [10];
    assert SetParticipant(map[], "g", 10) == map["g" := [10]];
  }

  /** Device 1 joins, leaves and is closed; the leave overtakes the join on its way to device 2. */
  function Overtaken(): seq<Action> {
    [JoinVoice(1, "g", 10), LeaveVoice(1), Reload(1), Deliver(2, 1), Deliver(2, 0)]
  }

  lemma RunsFive(w: World, acts: seq<Action>, w1: World, w2: World, w3: World, w4: World, w5: World)
    requires |acts| == 5
    requires Enabled(w, acts[0]) && Next(w, acts[0]) == w1 && Enabled(w1, acts[1]) && Next(w1, acts[1]) == w2
    requires Enabled(w2, acts[2]) && Next(w2, acts[2]) == w3 && Enabled(w3, acts[3]) && Next(w3, acts[3]) == w4
    requires Enabled(w4, acts[4]) && Next(w4, acts[4]) == w5
    ensures Run(w, acts) == Some(w5)
  {
    hide Next, Enabled;
    assert Run(w5, acts[5..]) == Some(w5);
    assert acts[4..][1..] == acts[5..] && acts[3..][1..] == acts[4..] && acts[2..][1..] == acts[3..]
           && acts[1..][1..] == acts[2..];
    assert Run(w4, acts[4..]) == Some(w5);
    assert Run(w3, acts[3..]) == Some(w5);
    assert Run(w2, acts[2..]) == Some(w5);
    assert Run(w1, acts[1..]) == Some(w5);
  }

  function Seat10(q: seq<Signal>): Node {
    Node(Some(Seat("g", 10)), map["g" := [10]], map[], q)
  }

  function Used10(): map<Session, Conv> {
    map[10 := "g"]
  }

  function Lists10(): Node {
    Node(None, map["g" := [10]], map[], [])
  }

  lemma JoinsThenLeaves(join: Signal, leave: Signal)
    requires join == Signal(Join, "g", 10, 0) && leave == Signal(Leave, "g", 10, 0)
    ensures Enabled(Pair(Empty([]), Empty([]), map[]), JoinVoice(1, "g", 10))
    ensures Next(Pair(Empty([]), Empty([]), map[]), JoinVoice(1, "g", 10))
            == Pair(Seat10([join]), Empty([join]), Used10())
    ensures Enabled(Pair(Seat10([join]), Empty([join]), Used10()), LeaveVoice(1))
    ensures Next(Pair(Seat10([join]), Empty([join]), Used10()), LeaveVoice(1))
            == Pair(Empty([join, leave]), Empty([join, leave]), Used10())
  {
    hide Broadcast, Enter, Depart;
    JoinsAlone(join);
    FirstBroadcasts(Empty([]), Empty([]), map[], Outcome(Seat10([]), [join]));
    assert Given(Seat10([]), [join]) == Seat10([join]) && Given(Empty([]), [join]) == Empty([join]);
    LeavesAlone([join]);
    FirstBroadcasts(Seat10([join]), Empty([join]), Used10(), Outcome(Empty([join]), [leave]));
    assert Given(Empty([join]), [leave]) == Empty([join, leave]);
  }

  lemma Closes(q: seq<Signal>)
    ensures Enabled(Pair(Empty(q), Empty(q), Used10()), Reload(1))
    ensures Next(Pair(Empty(q), Empty(q), Used10()), Reload(1)) == Pair(Empty([]), Empty(q), Used10())
  {
    hide Broadcast;
    FirstBroadcasts(Empty(q), Empty(q), Used10(), Outcome(Empty(q), []));
    GivenNothing(Empty(q));
    assert Wiped(Pair(Empty(q), Empty(q), Used10()), 1).nodes == map[1 := Empty([]), 2 := Empty(q)];
  }

  lemma HearsInReverse(join: Signal, leave: Signal)
    requires join == Signal(Join, "g", 10, 0) && leave == Signal(Leave, "g", 10, 0)
    ensures Enabled(Pair(Empty([]), Empty([join, leave]), Used10()), Deliver(2, 1))
    ensures Next(Pair(Empty([]), Empty([join, leave]), Used10()), Deliver(2, 1))
            == Pair(Empty([]), Empty([join]), Used10())
    ensures Enabled(Pair(Empty([]), Empty([join]), Used10()), Deliver(2, 0))
    ensures Next(Pair(Empty([]), Empty([join]), Used10()), Deliver(2, 0)) == Pair(Empty([]), Lists10(), Used10())
  {
    hide Broadcast, HandleVoiceSignal;
    assert Taken(Empty([join, leave]), 1) == Empty([join]);
    HearsLeave([join]);
    SecondBroadcasts(Empty([]), Empty([join, leave]), Used10(), Outcome(Empty([join]), []));
    assert Taken(Empty([join]), 0) == Empty([]);
    HearsJoin();
    SecondBroadcasts(Empty([]), Empty([join]), Used10(), Outcome(Lists10(), []));
    GivenNothing(Empty([]));
    GivenNothing(Empty([join]));
    GivenNothing(Lists10());
  }

  lemma OvertakenRuns()
    ensures Run(Pair(Empty([]), Empty([]), map[]), Overtaken()) == Some(Pair(Empty([]), Lists10(), Used10()))
  {
    hide Next, Enabled, Pair, Empty, Used10, Seat10, Lists10, Run;
    var join, leave := Signal(Join, "g", 10, 0), Signal(Leave, "g", 10, 0);
    JoinsThenLeaves(join, leave);
    Closes([join, leave]);
    HearsInReverse(join, leave);
    RunsFive(Pair(Empty([]), Empty([]), map[]), Overtaken(), Pair(Seat10([join]), Empty([join]), Used10()),
             Pair(Empty([join, leave]), Empty([join, leave]), Used10()),
             Pair(Empty([]), Empty([join, leave]), Used10()), Pair(Empty([]), Empty([join]), Used10()),
             Pair(Empty([]), Lists10(), Used10()));
  }

  /**
   Here nobody is in the channel, nothing is on its way, and device 2 lists a session.
   Expiry is left out: the client drops an entry not heard of for 65 seconds, so there
   the stale entry lasts until then.
   */
  lemma OvertakenLeaveStaysListedWithoutExpiry()
    ensures Run(Start({1, 2}), Overtaken()).Some?
    ensures var w := Run(Start({1, 2}), Overtaken()).value;
            && Quiet(w) && 2 in w.nodes && Listed(w.nodes[2].rooms, "g", 10)
            && forall e :: !Joined(w, e, "g", 10)
  {
    OvertakenRuns();
    hide Run, Overtaken;
    assert Start({1, 2}).nodes == Pair(Empty([]), Empty([]), map[]).nodes;
  }
}
