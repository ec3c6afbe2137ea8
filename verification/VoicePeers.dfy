/**
 Whom a device holds a connection to: only sessions it has heard of and not heard leave, and,
 once no signal is on its way, exactly the other sessions of its channel, unless a leave
 overtook something its session had sent before.
 */
module VoicePeers {
  import opened Wrappers
  import opened Voice
  import opened VoiceMesh
  import opened VoiceRuns
  import opened VoiceRosters

  // --- One signal ------------------------------------------------------------------------------

  predicate IsOwn(n: Node, x: Signal) {
    n.seat.Some? && x.session == n.seat.value.session
  }

  /** An offer or answer to this very seat. */
  predicate IsForUs(n: Node, x: Signal) {
    n.seat.Some? && x.conv == n.seat.value.conv && x.recipient == n.seat.value.session
  }

  /** A leave closes the peer of the session that left, and no other. */
  lemma LeaveCloses(n: Node, x: Signal)
    requires x.kind.Leave? && !IsOwn(n, x)
    ensures
      var o := HandleVoiceSignal(n, x);
      && x.session !in o.node.peers && o.sent == []
      && forall p :: p != x.session ==>
           (p in o.node.peers <==> p in n.peers) && (p in n.peers ==> o.node.peers[p] == n.peers[p])
  {}

  /** Descriptions for another session, or another channel, change nothing; nor do one's own signals. */
  lemma NotForUs(n: Node, x: Signal)
    requires IsOwn(n, x) || ((x.kind.Offer? || x.kind.Answer?) && !IsForUs(n, x))
    ensures HandleVoiceSignal(n, x) == Outcome(n, [])
  {}

  /** An offer is answered, and an answer settles what was offered; neither touches another peer or a list. */
  lemma DescriptionsSettle(n: Node, x: Signal)
    requires !IsOwn(n, x) && (x.kind.Offer? || x.kind.Answer?) && IsForUs(n, x)
    ensures
      var o, v := HandleVoiceSignal(n, x), n.seat.value;
      && o.node.rooms == n.rooms && o.node.seat == n.seat
      && o.sent == (if x.kind.Offer? then [Signal(Answer, v.conv, v.session, x.session)] else [])
      && (x.session in o.node.peers <==> x.kind.Offer? || x.session in n.peers)
      && (x.session in o.node.peers ==> o.node.peers[x.session] == Stable)
      && forall p :: p != x.session ==>
           (p in o.node.peers <==> p in n.peers) && (p in n.peers ==> o.node.peers[p] == n.peers[p])
  {}

  /** News of a session in our channel is offered to when it is the larger one and no peer yet; a join is answered. */
  lemma NewsIsAnswered(n: Node, x: Signal)
    requires !IsOwn(n, x) && (x.kind.Join? || x.kind.Here?)
    ensures
      var o := HandleVoiceSignal(n, x);
      var here := n.seat.Some? && n.seat.value.conv == x.conv;
      var offers := here && n.seat.value.session < x.session && x.session !in n.peers;
      && o.node.seat == n.seat
      && o.sent == (if here && x.kind.Join? then [Signal(Here, x.conv, n.seat.value.session, 0)] else [])
                   + (if offers then [Signal(Offer, x.conv, n.seat.value.session, x.session)] else [])
      && o.node.peers == if offers then n.peers[x.session := HaveLocalOffer] else n.peers
  {}

  /**
   A heartbeat heals every list: whatever a device believed, once it has handled the heartbeat
   of a session it lists that session.
   */
  lemma HeartbeatIsHeard(w: World, d: Device, e: Device, c: Conv, s: Session) returns (at: nat)
    requires Joined(w, d, c, s) && e in w.nodes && (w.nodes[e].seat.Some? ==> w.nodes[e].seat.value.session != s)
    ensures
      var w1 := Next(w, Heartbeat(d));
      && Enabled(w1, Deliver(e, at)) && w1.nodes[e].inbox[at] == Signal(Here, c, s, 0)
      && e in Next(w1, Deliver(e, at)).nodes && Listed(Next(w1, Deliver(e, at)).nodes[e].rooms, c, s)
  {
    var o := Beat(w.nodes[d]);
    var w1 := Broadcast(w, d, o);
    BeatSays(w.nodes[d]);
    BroadcastGives(w, d, o, e);
    at := |w.nodes[e].inbox|;
    StepLists(w1, Deliver(e, at), e, c, s);
    hide Beat, Broadcast, Listed;
  }

  /** Outcome o says `first`, and offers to just those larger sessions of the list that were no peers. */
  ghost predicate OffersAll(n: Node, o: Outcome, v: Seat, first: Kind, list: seq<Session>) {
    && o.node.seat == Some(v) && o.node.inbox == n.inbox
    && o.sent != [] && o.sent[0] == Signal(first, v.conv, v.session, 0)
    && (forall p :: p in n.peers ==> p in o.node.peers && o.node.peers[p] == n.peers[p])
    && (forall p :: p in o.node.peers && p !in n.peers ==>
          && o.node.peers[p] == HaveLocalOffer && p in list && v.session < p
          && Signal(Offer, v.conv, v.session, p) in o.sent)
    && (forall p :: p in list && v.session < p ==> p in o.node.peers)
    && (forall x :: x in o.sent && x != Signal(first, v.conv, v.session, 0) ==>
          x.recipient in list && v.session < x.recipient && x == Signal(Offer, v.conv, v.session, x.recipient))
  }

  lemma ConnectingOffersAll(n: Node, first: Kind, list: seq<Session>)
    requires n.seat.Some?
    ensures
      var v := n.seat.value;
      OffersAll(n, ConnectAll(Outcome(n, [Signal(first, v.conv, v.session, 0)]), list), v, first, list)
  {
    var v := n.seat.value;
    var o := Outcome(n, [Signal(first, v.conv, v.session, 0)]);
    ConnectAllConnects(o, list);
    hide ConnectAll;
    assert forall x :: x in o.sent <==> x == o.sent[0];
  }

  /** A heartbeat says that its session is there, and offers to every larger one listed that is no peer yet. */
  lemma BeatSays(n: Node)
    requires n.seat.Some?
    ensures OffersAll(n, Beat(n), n.seat.value, Here, ParticipantsOf(n.rooms, n.seat.value.conv))
  {
    ConnectingOffersAll(n, Here, ParticipantsOf(n.rooms, n.seat.value.conv));
    hide ConnectAll, OffersAll;
  }

  /** Taking a seat says so, and offers to everyone already listed in the channel who is larger. */
  lemma EnterSays(n: Node, c: Conv, s: Session)
    ensures
      var list := ParticipantsOf(n.rooms, c);
      OffersAll(n, Enter(n, c, s), Seat(c, s), Join, Without(list, s) + [s])
  {
    var rooms := SetParticipant(n.rooms, c, s);
    var m := n.(seat := Some(Seat(c, s)), rooms := rooms);
    ConnectingOffersAll(m, Join, ParticipantsOf(rooms, c));
    hide ConnectAll;
  }

  // --- A peer was heard of ------------------------------------------------------------------------

  /** What signal x tells device n about session s, in whatever channel: that it is there, that it left, or nothing. */
  function Contact(n: Node, x: Signal, s: Session): Option<bool> {
    if x.session != s || IsOwn(n, x) || x.kind.Answer? then None else Some(!x.kind.Leave?)
  }

  function Contacts(w: World, a: Action, d: Device, s: Session): Option<bool>
    requires d in w.nodes && Enabled(w, a)
  {
    match a
    case Deliver(e, at) => if e == d then Contact(w.nodes[d], w.nodes[d].inbox[at], s) else None
    case Reload(e) => if e == d then Some(false) else None
    case _ => None
  }

  /** What device d handled last of session s, since it was last loaded. */
  function LastContact(w: World, actions: seq<Action>, d: Device, s: Session, word: bool): bool
    requires d in w.nodes && Run(w, actions).Some?
    decreases |actions|
  {
    if actions == [] then word
    else
      var told := Contacts(w, actions[0], d, s);
      StepKeepsDevices(w, actions[0]);
      LastContact(Next(w, actions[0]), actions[1..], d, s, if told.Some? then told.value else word)
  }

  /** A session is listed in its own channel only. */
  ghost predicate ListsRight(used: map<Session, Conv>, rooms: Rooms) {
    forall c, s :: Listed(rooms, c, s) ==> s in used && used[s] == c
  }

  /** Session s is a peer, or listed other than as the device's own, only if it was heard of last. */
  ghost predicate HeardOf(n: Node, s: Session, word: bool) {
    && (s in n.peers ==> word)
    && forall c :: Listed(n.rooms, c, s) && n.seat != Some(Seat(c, s)) ==> word
  }

  ghost predicate Heard(w: World, d: Device, s: Session, word: bool) {
    d in w.nodes && HeardOf(w.nodes[d], s, word) && ListsRight(w.used, w.nodes[d].rooms)
  }

  /** One signal. */
  lemma HandlingHeard(used: map<Session, Conv>, n: Node, x: Signal, s: Session, word: bool)
    requires HeardOf(n, s, word) && ListsRight(used, n.rooms) && x.session in used && used[x.session] == x.conv
    ensures
      var o, told := HandleVoiceSignal(n, x), Contact(n, x, s);
      HeardOf(o.node, s, if told.Some? then told.value else word) && ListsRight(used, o.node.rooms)
  {
    var o := HandleVoiceSignal(n, x);
    forall c, t
      ensures Listed(o.node.rooms, c, t) ==>
                Listed(n.rooms, c, t) || (c == x.conv && t == x.session && (x.kind.Join? || x.kind.Here?))
      ensures x.kind.Leave? && !IsOwn(n, x) && c == x.conv && t == x.session ==> !Listed(o.node.rooms, c, t)
    {
      SetListed(n.rooms, x.conv, x.session, c, t);
      RemoveListed(n.rooms, x.conv, x.session, c, t);
      hide SetParticipant, RemoveParticipant, Listed;
    }
    hide SetParticipant, RemoveParticipant, Listed;
  }

  /** Connecting to those who are listed. */
  lemma ConnectingHeard(o: Outcome, c: Conv, s: Session, word: bool)
    requires HeardOf(o.node, s, word)
    ensures HeardOf(ConnectAll(o, ParticipantsOf(o.node.rooms, c)).node, s, word)
    ensures ConnectAll(o, ParticipantsOf(o.node.rooms, c)).node.rooms == o.node.rooms
    ensures ConnectAll(o, ParticipantsOf(o.node.rooms, c)).node.seat == o.node.seat
  {
    ConnectAllConnects(o, ParticipantsOf(o.node.rooms, c));
    hide ConnectAll;
    assert s in ParticipantsOf(o.node.rooms, c) <==> Listed(o.node.rooms, c, s);
    hide Listed, ParticipantsOf;
  }

  lemma BeatingHeard(n: Node, s: Session, word: bool)
    requires HeardOf(n, s, word)
    ensures HeardOf(Beat(n).node, s, word) && Beat(n).node.rooms == n.rooms
  {
    if n.seat.Some? {
      var v := n.seat.value;
      ConnectingHeard(Outcome(n, [Signal(Here, v.conv, v.session, 0)]), v.conv, s, word);
    }
    hide ConnectAll, Listed;
  }

  lemma DepartingHeard(used: map<Session, Conv>, n: Node, s: Session, word: bool)
    requires HeardOf(n, s, word) && ListsRight(used, n.rooms)
    ensures HeardOf(Depart(n).node, s, word) && ListsRight(used, Depart(n).node.rooms)
  {
    forall c, t
      ensures Listed(Depart(n).node.rooms, c, t) ==> Listed(n.rooms, c, t) && n.seat != Some(Seat(c, t))
    {
      DepartLists(n, c, t);
    }
    hide Listed, RemoveParticipant;
  }

  lemma EnteringHeard(used: map<Session, Conv>, n: Node, c: Conv, id: Session, s: Session, word: bool)
    requires HeardOf(n, s, word) && ListsRight(used, n.rooms) && n.seat.None? && n.peers == map[] && id !in used
    ensures HeardOf(Enter(n, c, id).node, s, word) && ListsRight(used[id := c], Enter(n, c, id).node.rooms)
  {
    var rooms := SetParticipant(n.rooms, c, id);
    var o := Outcome(n.(seat := Some(Seat(c, id)), rooms := rooms), [Signal(Join, c, id, 0)]);
    forall d, t
      ensures Listed(rooms, d, t) <==> Listed(n.rooms, d, t) || (d == c && t == id)
    {
      SetListed(n.rooms, c, id, d, t);
    }
    hide SetParticipant, Listed;
    ConnectingHeard(o, c, s, word);
    hide ConnectAll;
  }

  lemma StepHeard(w: World, a: Action, d: Device, s: Session, word: bool)
    requires Inv(w) && Enabled(w, a) && Heard(w, d, s, word)
    ensures
      var told := Contacts(w, a, d, s);
      Heard(Next(w, a), d, s, if told.Some? then told.value else word)
  {
    StepKeepsDevices(w, a);
    if a.d != d {
      OthersHeard(w, a, d, s, word);
      hide Next;
    } else {
      match a
      case JoinVoice(_, c, id) => if !IsHere(w.nodes[d], c) { JoiningHeard(w, d, c, id, s, word); }
      case LeaveVoice(_) => LeavingHeard(w, d, s, word);
      case Heartbeat(_) => HeartbeatHeard(w, d, s, word);
      case Reload(_) => ReloadHeard(w, d, s);
      case Deliver(_, at) => DeliveringHeard(w, d, at, s, word);
      hide Broadcast, Arrive, Sit, Wiped;
    }
    hide Inv, Heard, Depart, Beat;
  }

  lemma LeavingHeard(w: World, d: Device, s: Session, word: bool)
    requires Inv(w) && Heard(w, d, s, word)
    ensures Heard(Broadcast(w, d, Depart(w.nodes[d])), d, s, word)
  {
    var n := w.nodes[d];
    assert NodeOk(w.used, n);
    DepartingHeard(w.used, n, s, word);
    BroadcastGives(w, d, Depart(n), d);
    hide Inv, Listed, Depart, Broadcast;
  }

  lemma ReloadHeard(w: World, d: Device, s: Session)
    requires d in w.nodes
    ensures Heard(Wiped(Broadcast(w, d, Depart(w.nodes[d])), d), d, s, false)
  {
    BroadcastGives(w, d, Depart(w.nodes[d]), d);
    hide Depart, Broadcast;
  }

  lemma OthersHeard(w: World, a: Action, d: Device, s: Session, word: bool)
    requires Enabled(w, a) && a.d != d && Heard(w, d, s, word)
    ensures Heard(Next(w, a), d, s, word)
  {
    OthersNodes(w, a, d);
    hide Next, Enabled, Listed;
  }

  lemma HeartbeatHeard(w: World, d: Device, s: Session, word: bool)
    requires Inv(w) && Heard(w, d, s, word)
    ensures Heard(Broadcast(w, d, Beat(w.nodes[d])), d, s, word)
  {
    var n := w.nodes[d];
    BeatingHeard(n, s, word);
    BroadcastGives(w, d, Beat(n), d);
    hide Inv, Listed, Beat, Broadcast;
  }

  lemma DeliveringHeard(w: World, d: Device, at: nat, s: Session, word: bool)
    requires Inv(w) && Enabled(w, Deliver(d, at)) && Heard(w, d, s, word)
    ensures
      var told := Contact(w.nodes[d], w.nodes[d].inbox[at], s);
      Heard(Arrive(w, d, at), d, s, if told.Some? then told.value else word)
  {
    var n := w.nodes[d];
    assert SignalOk(w, n.inbox[at]);
    HandlingHeard(w.used, Taken(n, at), n.inbox[at], s, word);
    BroadcastGives(w, d, HandleVoiceSignal(Taken(n, at), n.inbox[at]), d);
    hide Inv, Listed, HandleVoiceSignal;
  }

  lemma JoiningHeard(w: World, d: Device, c: Conv, id: Session, s: Session, word: bool)
    requires Inv(w) && Enabled(w, JoinVoice(d, c, id)) && !IsHere(w.nodes[d], c) && Heard(w, d, s, word)
    ensures Heard(Next(w, JoinVoice(d, c, id)), d, s, word)
  {
    var n := w.nodes[d];
    assert NodeOk(w.used, n);
    DepartingHeard(w.used, n, s, word);
    BroadcastGives(w, d, Depart(n), d);
    var w1 := if n.seat.Some? then Broadcast(w, d, Depart(n)) else w;
    var m := w1.nodes[d];
    assert m.seat.None? && m.peers == map[];
    EnteringHeard(w.used, m, c, id, s, word);
    BroadcastGives(w1, d, Enter(m, c, id), d);
    hide Enter, Depart, Inv, Listed;
  }

  /** What one device does leaves seat, lists and peers of another as they are. */
  lemma OthersNodes(w: World, a: Action, d: Device)
    requires Enabled(w, a) && d in w.nodes && a.d != d
    ensures d in Next(w, a).nodes
    ensures
      var n, m := w.nodes[d], Next(w, a).nodes[d];
      m.seat == n.seat && m.rooms == n.rooms && m.peers == n.peers
    ensures forall s :: s in w.used ==> s in Next(w, a).used && Next(w, a).used[s] == w.used[s]
  {
    hide HandleVoiceSignal, Depart, Enter, Beat;
  }

  lemma {:induction false} RunHeard(w: World, actions: seq<Action>, d: Device, s: Session, word: bool)
    requires Inv(w) && Run(w, actions).Some? && Heard(w, d, s, word)
    ensures Heard(Run(w, actions).value, d, s, LastContact(w, actions, d, s, word))
    decreases |actions|
  {
    if actions != [] {
      hide Inv, Heard, Next, Enabled, Contacts;
      var told := Contacts(w, actions[0], d, s);
      assert d in w.nodes by { HeardIsThere(w, d, s, word); }
      StepKeeps(w, actions[0]);
      StepHeard(w, actions[0], d, s, word);
      RunHeard(Next(w, actions[0]), actions[1..], d, s, if told.Some? then told.value else word);
    }
  }

  lemma HeardIsThere(w: World, d: Device, s: Session, word: bool)
    requires Heard(w, d, s, word)
    ensures d in w.nodes
  {}

  /**
   On every run, whatever the order of delivery, a device holds a peer for a session only if
   the last join, heartbeat, offer or leave of it that the device handled, since it was
   loaded, was not the leave.
   */
  lemma PeersWereHeardOf(devices: set<Device>, actions: seq<Action>, d: Device, s: Session)
    requires Run(Start(devices), actions).Some? && d in devices
    requires d in Run(Start(devices), actions).value.nodes && s in Run(Start(devices), actions).value.nodes[d].peers
    ensures LastContact(Start(devices), actions, d, s, false)
  {
    var w := Start(devices);
    assert Inv(w);
    assert Heard(w, d, s, false);
    hide Inv, Run, LastContact;
    RunHeard(w, actions, d, s, false);
  }

  // --- Peers in silence ---------------------------------------------------------------------------

  /** A peer is another session of the device's channel: it is there, or its leave is on its way. */
  ghost predicate PeersTidy(w: World, n: Node) {
    forall p :: p in n.peers ==>
      && n.seat.Some? && p in w.used && w.used[p] == n.seat.value.conv && p != n.seat.value.session
      && (Seated(w, p) || LeaveIn(n.inbox, p))
  }

  ghost predicate AllTidy(w: World) {
    Tidy(w, true) && forall d :: d in w.nodes ==> PeersTidy(w, w.nodes[d])
  }

  /** Peers stay tidy while others come and go, if leaves are announced. */
  lemma PeersGrow(w: World, w1: World, n: Node, sent: seq<Signal>)
    requires PeersTidy(w, n)
    requires forall s :: s in w.used ==> s in w1.used && w1.used[s] == w.used[s]
    requires forall s :: Seated(w, s) ==> Seated(w1, s) || LeaveIn(n.inbox + sent, s)
    ensures PeersTidy(w1, Given(n, sent))
  {
    hide Seated;
    forall s | LeaveIn(n.inbox, s) ensures LeaveIn(n.inbox + sent, s) {
      LeaveStaysIn(n.inbox, s, sent);
    }
    hide LeaveIn;
  }

  /** The peers one signal leaves. */
  lemma PeersAfter(n: Node, x: Signal, p: Session)
    requires p in HandleVoiceSignal(n, x).node.peers
    ensures !(x.kind.Leave? && p == x.session && !IsOwn(n, x))
    ensures p in n.peers || (p == x.session && !IsOwn(n, x) && IsHere(n, x.conv) && Announces(x, p, true))
  {}

  lemma HandlingPeers(w: World, n: Node, at: nat)
    requires QueueTidy(w, n.inbox, true) && PeersTidy(w, n) && at < |n.inbox| && SignalOk(w, n.inbox[at])
    requires n.inbox[at].kind.Leave? ==>
      forall j :: 0 <= j < |n.inbox| ==> !Announces(n.inbox[j], n.inbox[at].session, true)
    requires n.seat.Some? ==> Seated(w, n.seat.value.session)
    ensures PeersTidy(w, HandleVoiceSignal(Taken(n, at), n.inbox[at]).node)
  {
    var x := n.inbox[at];
    var r := HandleVoiceSignal(Taken(n, at), x).node;
    HandlingCostsLess(0, Taken(n, at), x);
    HandlingSeats(Taken(n, at), x);
    TakingKeepsQueue(w, n.inbox, at, true);
    assert r.inbox == Rest(n.inbox, at);
    forall p | p in r.peers
      ensures r.seat.Some? && p in w.used && w.used[p] == r.seat.value.conv && p != r.seat.value.session
      ensures Seated(w, p) || LeaveIn(r.inbox, p)
    {
      PeersAfter(Taken(n, at), x, p);
      hide HandleVoiceSignal, QueueTidy, Rest, Seated, LeaveIn;
      if p in n.peers && LeaveIn(n.inbox, p) && !Seated(w, p) {
        LeaveStays(n.inbox, at, p);
      }
    }
  }

  /** Whoever is connected to from a tidy list. */
  lemma ConnectingPeers(w: World, o: Outcome, c: Conv)
    requires RoomsTidy(w, o.node) && PeersTidy(w, o.node) && IsHere(o.node, c)
    ensures PeersTidy(w, ConnectAll(o, ParticipantsOf(o.node.rooms, c)).node)
  {
    ConnectAllConnects(o, ParticipantsOf(o.node.rooms, c));
    hide ConnectAll, Seated, LeaveIn;
    assert forall p :: p in ParticipantsOf(o.node.rooms, c) ==> Listed(o.node.rooms, c, p);
    hide Listed, ParticipantsOf;
  }

  /** A device that keeps its seat. */
  lemma StayingPeers(w: World, d: Device, o: Outcome)
    requires AllTidy(w) && d in w.nodes && o.node.seat == w.nodes[d].seat && PeersTidy(w, o.node)
    ensures forall e :: e in w.nodes ==> PeersTidy(Broadcast(w, d, o), Broadcast(w, d, o).nodes[e])
  {
    var w1 := Broadcast(w, d, o);
    StayingSeats(w, d, o);
    forall e | e in w.nodes
      ensures PeersTidy(w1, w1.nodes[e])
    {
      BroadcastGives(w, d, o, e);
      hide PeersTidy, Seated, Tidy, Broadcast;
      PeersGrow(w, w1, if e == d then o.node else w.nodes[e], o.sent);
    }
  }

  lemma DepartingPeers(w: World, d: Device)
    requires AllTidy(w) && d in w.nodes
    ensures
      var w1 := Broadcast(w, d, Depart(w.nodes[d]));
      forall e :: e in w.nodes ==> PeersTidy(w1, w1.nodes[e])
  {
    var n := w.nodes[d];
    var o := Depart(n);
    var w1 := Broadcast(w, d, o);
    if n.seat.None? {
      assert forall e :: e in w.nodes ==> Given(w.nodes[e], []) == w.nodes[e];
      assert w1 == w;
    } else {
      DepartureSeats(w, d);
      assert PeersTidy(w, o.node);
      forall e | e in w.nodes
        ensures PeersTidy(w1, w1.nodes[e])
      {
        var m := if e == d then o.node else w.nodes[e];
        BroadcastGives(w, d, o, e);
        assert (m.inbox + o.sent)[|m.inbox|] == o.sent[0];
        assert LeaveIn(m.inbox + o.sent, n.seat.value.session);
        assert PeersTidy(w, m);
        hide PeersTidy, Seated, Tidy, Broadcast, RemoveParticipant, LeaveIn;
        PeersGrow(w, w1, m, o.sent);
      }
    }
  }

  lemma SittingPeers(w: World, d: Device, c: Conv, s: Session)
    requires AllTidy(w) && d in w.nodes && w.nodes[d].seat.None? && s !in w.used
    ensures
      var w1 := Sit(w, d, c, s);
      forall e :: e in w.nodes ==> PeersTidy(w1, w1.nodes[e])
  {
    var n, w1 := w.nodes[d], Sit(w, d, c, s);
    SittingSeats(w, d, c, s);
    var rooms := SetParticipant(n.rooms, c, s);
    var o := Outcome(n.(seat := Some(Seat(c, s)), rooms := rooms), [Signal(Join, c, s, 0)]);
    SeatIsTidy(w, w1, n, c, s);
    forall e | e in w.nodes
      ensures PeersTidy(w1, w1.nodes[e])
    {
      BroadcastGives(w, d, Enter(n, c, s), e);
      assert PeersTidy(w, w.nodes[e]);
      hide PeersTidy, Seated, Tidy, Broadcast, RoomsTidy, Enter, SetParticipant;
      if e == d {
        EnteringPeers(w1, n, c, s);
        PeersGrow(w1, w1, Enter(n, c, s).node, Enter(n, c, s).sent);
      } else {
        PeersGrow(w, w1, w.nodes[e], Enter(n, c, s).sent);
      }
    }
  }

  /** The list of a newcomer is tidy as soon as it sits. */
  lemma SeatIsTidy(w: World, w1: World, n: Node, c: Conv, s: Session)
    requires RoomsTidy(w, n) && n.seat.None? && s !in w.used && w1.used == w.used[s := c]
    requires Seated(w1, s) && forall t :: Seated(w, t) ==> Seated(w1, t)
    ensures RoomsTidy(w1, n.(seat := Some(Seat(c, s)), rooms := SetParticipant(n.rooms, c, s)))
  {
    forall d, x
      ensures Listed(SetParticipant(n.rooms, c, s), d, x) <==> Listed(n.rooms, d, x) || (d == c && x == s)
    {
      SetListed(n.rooms, c, s, d, x);
    }
    hide Listed, SetParticipant, Seated, LeaveIn;
  }

  lemma EnteringPeers(w1: World, n: Node, c: Conv, s: Session)
    requires RoomsTidy(w1, n.(seat := Some(Seat(c, s)), rooms := SetParticipant(n.rooms, c, s))) && n.peers == map[]
    ensures PeersTidy(w1, Enter(n, c, s).node)
  {
    var rooms := SetParticipant(n.rooms, c, s);
    hide RoomsTidy, SetParticipant, ConnectAll;
    ConnectingPeers(w1, Outcome(n.(seat := Some(Seat(c, s)), rooms := rooms), [Signal(Join, c, s, 0)]), c);
  }

  lemma WipingPeers(w: World, d: Device)
    requires AllTidy(w) && d in w.nodes && w.nodes[d].seat.None?
    ensures forall e :: e in w.nodes ==> PeersTidy(Wiped(w, d), Wiped(w, d).nodes[e])
  {
    var w1 := Wiped(w, d);
    forall s | Seated(w, s)
      ensures Seated(w1, s)
    {
      var e :| e in w.nodes && w.nodes[e].seat.Some? && w.nodes[e].seat.value.session == s;
      assert w1.nodes[e].seat == w.nodes[e].seat;
    }
    hide Tidy, Seated;
    forall e | e in w.nodes
      ensures PeersTidy(w1, w1.nodes[e])
    {
      assert PeersTidy(w, w.nodes[e]);
    }
  }

  lemma TidyStep(w: World, a: Action)
    requires AllTidy(w) && Enabled(w, a) && Orderly(w, a, true)
    ensures AllTidy(Next(w, a))
  {
    hide Tidy, PeersTidy, Broadcast, Depart, Orderly, Arrive, Wiped, Sit, Beat;
    OrderlyStepKeeps(w, a, true);
    StepKeepsDevices(w, a);
    match a
    case JoinVoice(d, c, s) =>
      if !IsHere(w.nodes[d], c) { JoiningPeers(w, d, c, s); }
    case LeaveVoice(d) =>
      DepartingPeers(w, d);
    case Heartbeat(d) =>
      BeatingPeers(w, d);
    case Reload(d) =>
      ReloadingPeers(w, d);
    case Deliver(d, at) =>
      ArrivingPeers(w, d, at);
  }

  lemma JoiningPeers(w: World, d: Device, c: Conv, s: Session)
    requires AllTidy(w) && Enabled(w, JoinVoice(d, c, s)) && !IsHere(w.nodes[d], c)
    ensures
      var w1 := Next(w, JoinVoice(d, c, s));
      forall e :: e in w.nodes ==> e in w1.nodes && PeersTidy(w1, w1.nodes[e])
  {
    StepKeepsDevices(w, JoinVoice(d, c, s));
    hide Tidy, PeersTidy, Broadcast, Depart;
    if w.nodes[d].seat.Some? {
      DepartureKeepsTidy(w, d, true);
      DepartingPeers(w, d);
      DepartLeaves(w, d);
      SittingPeers(Broadcast(w, d, Depart(w.nodes[d])), d, c, s);
    } else {
      SittingPeers(w, d, c, s);
    }
  }

  lemma ReloadingPeers(w: World, d: Device)
    requires AllTidy(w) && d in w.nodes
    ensures
      var w1 := Wiped(Broadcast(w, d, Depart(w.nodes[d])), d);
      forall e :: e in w.nodes ==> e in w1.nodes && PeersTidy(w1, w1.nodes[e])
  {
    hide Tidy, PeersTidy, Broadcast, Depart;
    DepartureKeepsTidy(w, d, true);
    DepartingPeers(w, d);
    DepartLeaves(w, d);
    WipingPeers(Broadcast(w, d, Depart(w.nodes[d])), d);
  }

  lemma BeatingPeers(w: World, d: Device)
    requires AllTidy(w) && d in w.nodes
    ensures
      var w1 := Broadcast(w, d, Beat(w.nodes[d]));
      forall e :: e in w.nodes ==> PeersTidy(w1, w1.nodes[e])
  {
    var n := w.nodes[d];
    BeatSeats(n);
    assert PeersTidy(w, n) && RoomsTidy(w, n);
    if n.seat.Some? {
      var v := n.seat.value;
      ConnectingPeers(w, Outcome(n, [Signal(Here, v.conv, v.session, 0)]), v.conv);
    }
    assert PeersTidy(w, Beat(n).node);
    hide AllTidy, PeersTidy, Beat, Broadcast;
    StayingPeers(w, d, Beat(n));
  }

  lemma ArrivingPeers(w: World, d: Device, at: nat)
    requires AllTidy(w) && Enabled(w, Deliver(d, at)) && Orderly(w, Deliver(d, at), true)
    ensures forall e :: e in w.nodes ==> PeersTidy(Arrive(w, d, at), Arrive(w, d, at).nodes[e])
  {
    var n := w.nodes[d];
    assert SignalOk(w, n.inbox[at]) && PeersTidy(w, n) && QueueTidy(w, n.inbox, true);
    HandlingPeers(w, n, at);
    HandlingSeats(Taken(n, at), n.inbox[at]);
    hide AllTidy, PeersTidy, HandleVoiceSignal, Broadcast, QueueTidy;
    StayingPeers(w, d, HandleVoiceSignal(Taken(n, at), n.inbox[at]));
  }

  lemma {:induction false} TidyRun(w: World, actions: seq<Action>)
    requires AllTidy(w) && OrderlyRun(w, actions, true)
    ensures Run(w, actions).Some? && AllTidy(Run(w, actions).value)
    decreases |actions|
  {
    hide AllTidy, Next, Orderly;
    if actions != [] {
      TidyStep(w, actions[0]);
      TidyRun(Next(w, actions[0]), actions[1..]);
    }
  }

  lemma QuietPeer(w: World, d: Device, p: Session)
    requires NodesOk(w) && d in w.nodes && PeersTidy(w, w.nodes[d]) && w.nodes[d].inbox == [] && p in w.nodes[d].peers
    ensures w.nodes[d].seat.Some? && p != w.nodes[d].seat.value.session
    ensures exists e :: Joined(w, e, w.nodes[d].seat.value.conv, p)
  {
    var e :| e in w.nodes && w.nodes[e].seat.Some? && w.nodes[e].seat.value.session == p;
    assert NodeOk(w.used, w.nodes[e]);
    assert Joined(w, e, w.nodes[d].seat.value.conv, p);
  }

  /**
   If no leave overtakes a join, a heartbeat or an offer of its session, then once no signal is
   on its way the peers of a device are exactly the other sessions of its channel, all of them
   settled; a device in no channel has none.
   */
  lemma PeersAreExact(devices: set<Device>, actions: seq<Action>, d: Device, p: Session)
    requires OrderlyRun(Start(devices), actions, true) && Run(Start(devices), actions).Some?
    requires Quiet(Run(Start(devices), actions).value) && d in Run(Start(devices), actions).value.nodes
    ensures
      var w := Run(Start(devices), actions).value;
      var n := w.nodes[d];
      && (p in n.peers <==> n.seat.Some? && p != n.seat.value.session
                            && exists e :: Joined(w, e, n.seat.value.conv, p))
      && (p in n.peers ==> n.peers[p] == Stable)
  {
    var w := Run(Start(devices), actions).value;
    assert AllTidy(Start(devices));
    TidyRun(Start(devices), actions);
    hide Run, OrderlyRun, NodesOk, PairsOk, PeersTidy;
    var n := w.nodes[d];
    if p in n.peers { QuietPeer(w, d, p); }
    if n.seat.Some? && p != n.seat.value.session {
      if e :| Joined(w, e, n.seat.value.conv, p) {
        MeshIsComplete(devices, actions, d, e, n.seat.value.conv, n.seat.value.session, p);
      }
    }
  }
}
