/**
 The voice mesh of a group: any number of devices and the signals between them.

 A device's inbox holds the signals on their way to it, in the order they were
 sent. Delivery may take any of them, so the network may reorder freely; it
 neither loses nor repeats a signal, connections do not fail and no entry
 expires.
 */
module VoiceMesh {
  import opened Wrappers
  import opened Voice

  type Device = int

  /** `used` remembers every session id ever handed out and its channel. */
  datatype World = World(nodes: map<Device, Node>, used: map<Session, Conv>)

  datatype Action =
    | JoinVoice(d: Device, conv: Conv, id: Session)
    | LeaveVoice(d: Device)
    | Heartbeat(d: Device)
    | Reload(d: Device)
    | Deliver(d: Device, at: nat)

  predicate Enabled(w: World, a: Action) {
    match a
    case JoinVoice(d, _, s) => d in w.nodes && s !in w.used
    case LeaveVoice(d) => d in w.nodes
    case Heartbeat(d) => d in w.nodes
    case Reload(d) => d in w.nodes
    case Deliver(d, at) => d in w.nodes && at < |w.nodes[d].inbox|
  }

  /** Device d becomes `o.node`, and what it sent is on its way to everyone. */
  function Broadcast(w: World, d: Device, o: Outcome): World {
    w.(nodes := map e | e in w.nodes ::
      (if e == d then o.node else w.nodes[e]).(inbox := (if e == d then o.node else w.nodes[e]).inbox + o.sent))
  }

  function Taken(n: Node, at: nat): Node
    requires at < |n.inbox|
  {
    n.(inbox := n.inbox[..at] + n.inbox[at + 1..])
  }

  function Arrive(w: World, d: Device, at: nat): World
    requires d in w.nodes && at < |w.nodes[d].inbox|
  {
    Broadcast(w, d, HandleVoiceSignal(Taken(w.nodes[d], at), w.nodes[d].inbox[at]))
  }

  function Sit(w: World, d: Device, c: Conv, s: Session): World
    requires d in w.nodes
  {
    Broadcast(w, d, Enter(w.nodes[d], c, s)).(used := w.used[s := c])
  }

  /** A page that was closed and opened again: it knows nothing and missed what was on its way. */
  function Wiped(w: World, d: Device): World
    requires d in w.nodes
  {
    w.(nodes := w.nodes[d := Node(None, map[], map[], [])])
  }

  function Next(w: World, a: Action): World
    requires Enabled(w, a)
  {
    match a
    case JoinVoice(d, c, s) =>
      if IsHere(w.nodes[d], c) then w
      else if w.nodes[d].seat.Some? then Sit(Broadcast(w, d, Depart(w.nodes[d])), d, c, s)
      else Sit(w, d, c, s)
    case LeaveVoice(d) => Broadcast(w, d, Depart(w.nodes[d]))
    case Heartbeat(d) => Broadcast(w, d, Beat(w.nodes[d]))
    case Reload(d) => Wiped(Broadcast(w, d, Depart(w.nodes[d])), d)
    case Deliver(d, at) => Arrive(w, d, at)
  }

  // --- The invariant ----------------------------------------------------------

  predicate Joined(w: World, d: Device, c: Conv, s: Session) {
    d in w.nodes && w.nodes[d].seat == Some(Seat(c, s))
  }

  ghost predicate Seated(w: World, s: Session) {
    exists d :: d in w.nodes && w.nodes[d].seat.Some? && w.nodes[d].seat.value.session == s
  }

  /** A signal some device could have sent: only the smaller session of a pair offers. */
  ghost predicate SignalOk(w: World, x: Signal) {
    && x.session in w.used && x.conv == w.used[x.session]
    && (x.kind.Offer? ==> x.session < x.recipient)
    && (x.kind.Answer? ==> x.recipient < x.session)
    && (x.kind.Leave? ==> !Seated(w, x.session))
  }

  /** What each device may hold, whatever the others do. */
  ghost predicate NodeOk(used: map<Session, Conv>, n: Node) {
    && (n.seat.None? ==> n.peers == map[])
    && (n.seat.Some? ==> n.seat.value.session in used && used[n.seat.value.session] == n.seat.value.conv)
    && (forall p :: p in n.peers ==> p in used)
    && (forall p :: p in n.peers && n.peers[p] == HaveLocalOffer ==> n.seat.Some? && n.seat.value.session < p)
    && (forall c, s :: Listed(n.rooms, c, s) ==> s in used)
  }

  predicate SameSeat(w: World, d: Device, e: Device) {
    d in w.nodes && e in w.nodes && w.nodes[d].seat.Some? && w.nodes[d].seat == w.nodes[e].seat
  }

  ghost predicate NodesOk(w: World) {
    && (forall d :: d in w.nodes ==> NodeOk(w.used, w.nodes[d]))
    && (forall d, x :: d in w.nodes && x in w.nodes[d].inbox ==> SignalOk(w, x))
    && (forall d, e :: SameSeat(w, d, e) ==> d == e)
  }

  /** B is known to A as a participant, or a signal that will tell one of them is on its way. */
  predicate Announced(a: Node, b: Node, c: Conv, s: Session, t: Session) {
    Signal(Join, c, t, 0) in a.inbox || Signal(Here, c, t, 0) in a.inbox || Signal(Join, c, s, 0) in b.inbox
  }

  /** B is in A's list of the channel, or will be. */
  predicate ListOk(a: Node, b: Node, c: Conv, s: Session, t: Session) {
    Listed(a.rooms, c, t) || Announced(a, b, c, s, t)
  }

  /** When A is the one to offer: it holds a peer or will, and every description has its answer coming. */
  predicate PeerOk(a: Node, b: Node, c: Conv, s: Session, t: Session) {
    && (t in a.peers || Announced(a, b, c, s, t))
    && (t in a.peers ==> s in b.peers || Signal(Offer, c, s, t) in b.inbox)
    && (t in a.peers && a.peers[t] == HaveLocalOffer ==>
          Signal(Offer, c, s, t) in b.inbox || Signal(Answer, c, t, s) in a.inbox)
  }

  /** A and B are joined to channel c as s and t. */
  predicate PairOk(a: Node, b: Node, c: Conv, s: Session, t: Session) {
    ListOk(a, b, c, s, t) && (s < t ==> PeerOk(a, b, c, s, t))
  }

  ghost predicate PairsOk(w: World) {
    forall d, e, c, s, t :: d != e && Joined(w, d, c, s) && Joined(w, e, c, t) ==>
      PairOk(w.nodes[d], w.nodes[e], c, s, t)
  }

  ghost predicate Inv(w: World) {
    NodesOk(w) && PairsOk(w)
  }

  // --- Small facts ----------------------------------------------------------

  lemma InRest(q: seq<Signal>, at: nat, x: Signal)
    requires at < |q|
    ensures x in q[..at] + q[at + 1..] ==> x in q
    ensures x in q && x != q[at] ==> x in q[..at] + q[at + 1..]
  {
    if x in q && x != q[at] {
      var i :| 0 <= i < |q| && q[i] == x;
      if i < at {
        assert (q[..at] + q[at + 1..])[i] == x;
      } else {
        assert (q[..at] + q[at + 1..])[i - 1] == x;
      }
    }
  }

  function Given(n: Node, sent: seq<Signal>): Node {
    n.(inbox := n.inbox + sent)
  }

  // --- Delivering a signal ----------------------------------------------------

  /** Taking signal x out leaves the pair announced, unless x itself was the announcement. */
  lemma StillAnnounced(a: Node, b: Node, c: Conv, s: Session, t: Session, at: nat, sent: seq<Signal>)
    requires Announced(a, b, c, s, t)
    ensures at < |a.inbox| ==>
      || Announced(Given(Taken(a, at), sent), Given(b, sent), c, s, t)
      || (a.inbox[at].session == t && a.inbox[at].conv == c && (a.inbox[at].kind.Join? || a.inbox[at].kind.Here?))
    ensures at < |b.inbox| ==>
      || Announced(Given(a, sent), Given(Taken(b, at), sent), c, s, t)
      || b.inbox[at] == Signal(Join, c, s, 0)
  {
    if at < |a.inbox| {
      InRest(a.inbox, at, Signal(Join, c, t, 0));
      InRest(a.inbox, at, Signal(Here, c, t, 0));
    }
    if at < |b.inbox| {
      InRest(b.inbox, at, Signal(Join, c, s, 0));
    }
  }

  lemma HandleLists(n: Node, x: Signal, c: Conv, s: Session)
    requires n.seat.Some? ==> n.seat.value.session != x.session
    ensures var r := HandleVoiceSignal(n, x).node;
            && r.seat == n.seat && r.inbox == n.inbox
            && (Listed(n.rooms, c, s) && !(x.kind.Leave? && x.session == s) ==> Listed(r.rooms, c, s))
            && ((x.kind.Join? || x.kind.Here?) && x.conv == c && x.session == s ==> Listed(r.rooms, c, s))
            && (Listed(r.rooms, c, s) ==>
                  Listed(n.rooms, c, s) || (x.session == s && x.conv == c && (x.kind.Join? || x.kind.Here?)))
            && (x.kind.Leave? && x.conv == c && x.session == s ==> !Listed(r.rooms, c, s))
  {
    SetListed(n.rooms, x.conv, x.session, c, s);
    RemoveListed(n.rooms, x.conv, x.session, c, s);
    hide SetParticipant, RemoveParticipant, Listed;
  }

  /** The receiving side of a pair keeps the pair's promises. */
  lemma ReceiverKeepsList(a: Node, b: Node, c: Conv, s: Session, t: Session, at: nat)
    requires a.seat == Some(Seat(c, s)) && s != t && at < |a.inbox|
    requires ListOk(a, b, c, s, t)
    requires a.inbox[at].kind.Leave? ==> a.inbox[at].session != t
    ensures var o := HandleVoiceSignal(Taken(a, at), a.inbox[at]);
            ListOk(Given(o.node, o.sent), Given(b, o.sent), c, s, t)
  {
    var x := a.inbox[at];
    var o := HandleVoiceSignal(Taken(a, at), x);
    if Announced(a, b, c, s, t) {
      StillAnnounced(a, b, c, s, t, at, o.sent);
    }
    if x.session != s {
      HandleLists(Taken(a, at), x, c, t);
    }
    hide SetParticipant, RemoveParticipant, Listed;
  }

  lemma ReceiverKeepsPeer(a: Node, b: Node, c: Conv, s: Session, t: Session, at: nat)
    requires a.seat == Some(Seat(c, s)) && s < t && at < |a.inbox|
    requires PeerOk(a, b, c, s, t)
    requires a.inbox[at].kind.Leave? ==> a.inbox[at].session != t
    requires a.inbox[at].kind.Offer? ==> a.inbox[at].session < a.inbox[at].recipient
    ensures var o := HandleVoiceSignal(Taken(a, at), a.inbox[at]);
            PeerOk(Given(o.node, o.sent), Given(b, o.sent), c, s, t)
  {
    var x := a.inbox[at];
    var o := HandleVoiceSignal(Taken(a, at), x);
    if Announced(a, b, c, s, t) {
      StillAnnounced(a, b, c, s, t, at, o.sent);
    }
    InRest(a.inbox, at, Signal(Answer, c, t, s));
    hide SetParticipant, RemoveParticipant, Listed, Announced;
  }

  /** So does the other side, told of the receiver's answer. */
  lemma OtherKeepsList(a: Node, b: Node, c: Conv, s: Session, t: Session, at: nat)
    requires b.seat == Some(Seat(c, t)) && s != t && at < |b.inbox|
    requires ListOk(a, b, c, s, t)
    ensures var o := HandleVoiceSignal(Taken(b, at), b.inbox[at]);
            ListOk(Given(a, o.sent), Given(o.node, o.sent), c, s, t)
  {
    var o := HandleVoiceSignal(Taken(b, at), b.inbox[at]);
    if Announced(a, b, c, s, t) {
      StillAnnounced(a, b, c, s, t, at, o.sent);
    }
    hide SetParticipant, RemoveParticipant, Listed;
  }

  lemma OtherAnswers(b: Node, c: Conv, s: Session, t: Session, at: nat)
    requires b.seat == Some(Seat(c, t)) && s < t && at < |b.inbox|
    requires b.inbox[at].kind.Leave? ==> b.inbox[at].session != s
    ensures
      var x, o := b.inbox[at], HandleVoiceSignal(Taken(b, at), b.inbox[at]);
      && o.node.inbox == Taken(b, at).inbox
      && (s in b.peers ==> s in o.node.peers)
      && (x == Signal(Offer, c, s, t) ==> s in o.node.peers && Signal(Answer, c, t, s) in o.sent)
      && (x == Signal(Join, c, s, 0) ==> Signal(Here, c, t, 0) in o.sent)
  {
    hide SetParticipant, RemoveParticipant;
    var x, o := b.inbox[at], HandleVoiceSignal(Taken(b, at), b.inbox[at]);
    if x == Signal(Offer, c, s, t) {
      assert o.sent[0] == Signal(Answer, c, t, s);
    } else if x == Signal(Join, c, s, 0) {
      assert o.sent[0] == Signal(Here, c, t, 0);
    }
  }

  lemma OtherKeepsPeer(a: Node, b: Node, c: Conv, s: Session, t: Session, at: nat)
    requires b.seat == Some(Seat(c, t)) && s < t && at < |b.inbox|
    requires PeerOk(a, b, c, s, t)
    requires b.inbox[at].kind.Leave? ==> b.inbox[at].session != s
    ensures var o := HandleVoiceSignal(Taken(b, at), b.inbox[at]);
            PeerOk(Given(a, o.sent), Given(o.node, o.sent), c, s, t)
  {
    var o := HandleVoiceSignal(Taken(b, at), b.inbox[at]);
    if Announced(a, b, c, s, t) {
      StillAnnounced(a, b, c, s, t, at, o.sent);
    }
    InRest(b.inbox, at, Signal(Offer, c, s, t));
    OtherAnswers(b, c, s, t, at);
    hide HandleVoiceSignal, Listed;
  }

  // --- One device acts, the others listen -------------------------------------

  lemma BroadcastGives(w: World, d: Device, o: Outcome, e: Device)
    requires d in w.nodes && e in w.nodes
    ensures Broadcast(w, d, o).nodes[e] == Given(if e == d then o.node else w.nodes[e], o.sent)
    ensures Broadcast(w, d, o).nodes.Keys == w.nodes.Keys && Broadcast(w, d, o).used == w.used
  {}

  /** A pair that neither acts nor is acted on keeps its promises. */
  lemma ListenersKeepPair(a: Node, b: Node, c: Conv, s: Session, t: Session, sent: seq<Signal>)
    requires PairOk(a, b, c, s, t)
    ensures PairOk(Given(a, sent), Given(b, sent), c, s, t)
  {}

  /** A device keeps its seat while it handles a signal or beats. */
  ghost predicate Stays(w: World, d: Device, o: Outcome) {
    && d in w.nodes && o.node.seat == w.nodes[d].seat && NodeOk(w.used, o.node)
    && (forall x :: x in o.node.inbox ==> x in w.nodes[d].inbox)
    && (forall x :: x in o.sent ==> SignalOk(w, x))
  }

  lemma StayingKeepsNodes(w: World, d: Device, o: Outcome)
    requires NodesOk(w) && Stays(w, d, o)
    ensures NodesOk(Broadcast(w, d, o))
  {
    var w1 := Broadcast(w, d, o);
    forall x | SignalOk(w, x) ensures SignalOk(w1, x) {
      if Seated(w1, x.session) {
        var e :| e in w1.nodes && w1.nodes[e].seat.Some? && w1.nodes[e].seat.value.session == x.session;
        assert w.nodes[e].seat == w1.nodes[e].seat;
      }
    }
    forall e | e in w1.nodes ensures NodeOk(w1.used, w1.nodes[e]) {
      assert NodeOk(w.used, w.nodes[e]);
    }
    forall e, f | SameSeat(w1, e, f) ensures e == f {
      assert SameSeat(w, e, f);
    }
    forall e, x | e in w1.nodes && x in w1.nodes[e].inbox ensures SignalOk(w1, x) {
      assert x in w.nodes[e].inbox || x in o.sent;
    }
  }

  /** If every pair the device is part of keeps its promises, all pairs do. */
  lemma StayingKeepsPairs(w: World, d: Device, o: Outcome)
    requires NodesOk(w) && PairsOk(w) && Stays(w, d, o)
    requires forall e, c, s, t :: e != d && Joined(w, d, c, s) && Joined(w, e, c, t) ==>
               && PairOk(Given(o.node, o.sent), Given(w.nodes[e], o.sent), c, s, t)
               && PairOk(Given(w.nodes[e], o.sent), Given(o.node, o.sent), c, t, s)
    ensures PairsOk(Broadcast(w, d, o))
  {
    var w1 := Broadcast(w, d, o);
    forall e, f, c, s, t | e != f && Joined(w1, e, c, s) && Joined(w1, f, c, t)
      ensures PairOk(w1.nodes[e], w1.nodes[f], c, s, t)
    {
      assert Joined(w, e, c, s) && Joined(w, f, c, t);
      BroadcastGives(w, d, o, e);
      BroadcastGives(w, d, o, f);
      hide PairOk, Broadcast, Given, NodeOk, SignalOk;
      if d != e && d != f {
        ListenersKeepPair(w.nodes[e], w.nodes[f], c, s, t, o.sent);
      }
    }
  }

  // --- Delivery keeps the invariant --------------------------------------------

  lemma SeatsDiffer(w: World, d: Device, e: Device, c: Conv, s: Session, t: Session)
    requires NodesOk(w) && d != e && Joined(w, d, c, s) && Joined(w, e, c, t)
    ensures s != t && Seated(w, s) && Seated(w, t)
  {
    assert s == t ==> SameSeat(w, d, e);
  }

  lemma ArrivalStays(w: World, d: Device, at: nat)
    requires NodesOk(w) && d in w.nodes && at < |w.nodes[d].inbox|
    ensures Stays(w, d, HandleVoiceSignal(Taken(w.nodes[d], at), w.nodes[d].inbox[at]))
  {
    var n := w.nodes[d];
    var x := n.inbox[at];
    var o := HandleVoiceSignal(Taken(n, at), x);
    assert SignalOk(w, x) && NodeOk(w.used, n);
    forall y ensures y in Taken(n, at).inbox ==> y in n.inbox {
      InRest(n.inbox, at, y);
    }
    if !(n.seat.Some? && x.session == n.seat.value.session) {
      forall c, s | Listed(o.node.rooms, c, s) ensures s in w.used {
        HandleLists(Taken(n, at), x, c, s);
      }
    }
    hide SetParticipant, RemoveParticipant, Listed;
  }

  lemma ArrivalKeeps(w: World, d: Device, at: nat)
    requires Inv(w) && d in w.nodes && at < |w.nodes[d].inbox|
    ensures Inv(Arrive(w, d, at))
  {
    var n := w.nodes[d];
    var x := n.inbox[at];
    var o := HandleVoiceSignal(Taken(n, at), x);
    ArrivalStays(w, d, at);
    assert SignalOk(w, x) && NodeOk(w.used, n);
    forall e, c, s, t | e != d && Joined(w, d, c, s) && Joined(w, e, c, t)
      ensures PairOk(Given(o.node, o.sent), Given(w.nodes[e], o.sent), c, s, t)
      ensures PairOk(Given(w.nodes[e], o.sent), Given(o.node, o.sent), c, t, s)
    {
      SeatsDiffer(w, d, e, c, s, t);
      hide ListOk, PeerOk, Given, HandleVoiceSignal, Taken;
      ReceiverKeepsList(n, w.nodes[e], c, s, t, at);
      OtherKeepsList(w.nodes[e], n, c, t, s, at);
      if s < t {
        ReceiverKeepsPeer(n, w.nodes[e], c, s, t, at);
      } else {
        OtherKeepsPeer(w.nodes[e], n, c, t, s, at);
      }
    }
    hide Stays, Broadcast, PairOk, HandleVoiceSignal, NodesOk;
    StayingKeepsNodes(w, d, o);
    StayingKeepsPairs(w, d, o);
  }

  // --- Heartbeats, leaving and joining ------------------------------------------

  /** Offering to more participants keeps both sides of a pair. */
  lemma ConnectingKeepsPair(a: Node, b: Node, c: Conv, s: Session, t: Session,
                            o: Outcome, r: Outcome, list: seq<Session>)
    requires a.seat == Some(Seat(c, s)) && o.node == a && Connects(o, r, list)
    ensures PairOk(a, b, c, s, t) ==> PairOk(Given(r.node, r.sent), Given(b, r.sent), c, s, t)
    ensures PairOk(b, a, c, t, s) ==> PairOk(Given(b, r.sent), Given(r.node, r.sent), c, t, s)
  {}

  lemma BeatStays(w: World, d: Device)
    requires NodesOk(w) && d in w.nodes && w.nodes[d].seat.Some?
    ensures Stays(w, d, Beat(w.nodes[d]))
  {
    var n := w.nodes[d];
    var v := n.seat.value;
    var o := Outcome(n, [Signal(Here, v.conv, v.session, 0)]);
    assert NodeOk(w.used, n);
    var list := ParticipantsOf(n.rooms, v.conv);
    assert forall p :: p in list ==> Listed(n.rooms, v.conv, p);
    hide Listed, ParticipantsOf;
    ConnectAllConnects(o, list);
  }

  lemma BeatKeeps(w: World, d: Device)
    requires Inv(w) && d in w.nodes
    ensures Inv(Broadcast(w, d, Beat(w.nodes[d])))
  {
    var n := w.nodes[d];
    var o := Beat(n);
    if n.seat.None? {
      assert forall e :: e in w.nodes ==> Given(w.nodes[e], []) == w.nodes[e];
      assert Broadcast(w, d, o) == w;
    } else {
      var v := n.seat.value;
      BeatStays(w, d);
      ConnectAllConnects(Outcome(n, [Signal(Here, v.conv, v.session, 0)]), ParticipantsOf(n.rooms, v.conv));
      forall e, c, s, t | e != d && Joined(w, d, c, s) && Joined(w, e, c, t)
        ensures PairOk(Given(o.node, o.sent), Given(w.nodes[e], o.sent), c, s, t)
        ensures PairOk(Given(w.nodes[e], o.sent), Given(o.node, o.sent), c, t, s)
      {
        hide PairOk, Given, Connects;
        ConnectingKeepsPair(n, w.nodes[e], c, s, t, Outcome(n, [Signal(Here, v.conv, v.session, 0)]), o,
                            ParticipantsOf(n.rooms, v.conv));
      }
      hide Stays, Broadcast, PairOk, NodesOk, Beat;
      StayingKeepsNodes(w, d, o);
      StayingKeepsPairs(w, d, o);
    }
  }

  /** A session whose device has left is seated nowhere. */
  lemma LeavingVacates(w: World, d: Device)
    requires NodesOk(w) && d in w.nodes && w.nodes[d].seat.Some?
    ensures !Seated(Broadcast(w, d, Depart(w.nodes[d])), w.nodes[d].seat.value.session)
  {
    var v := w.nodes[d].seat.value;
    var w1 := Broadcast(w, d, Depart(w.nodes[d]));
    forall e | e in w1.nodes && w1.nodes[e].seat.Some? ensures w1.nodes[e].seat.value.session != v.session {
      assert e != d && w1.nodes[e].seat == w.nodes[e].seat;
      assert NodeOk(w.used, w.nodes[d]) && NodeOk(w.used, w.nodes[e]);
      assert w.nodes[e].seat == w.nodes[d].seat ==> SameSeat(w, d, e);
    }
  }

  lemma DepartingIsOk(used: map<Session, Conv>, n: Node)
    requires NodeOk(used, n) && n.seat.Some?
    ensures NodeOk(used, Depart(n).node)
  {
    var v := n.seat.value;
    forall c, s | Listed(Depart(n).node.rooms, c, s) ensures s in used {
      RemoveListed(n.rooms, v.conv, v.session, c, s);
    }
    hide RemoveParticipant, Listed;
  }

  lemma DepartureKeepsSignals(w: World, d: Device, x: Signal)
    requires d in w.nodes && w.nodes[d].seat.Some? && SignalOk(w, x)
    ensures SignalOk(Broadcast(w, d, Depart(w.nodes[d])), x)
  {
    var w1 := Broadcast(w, d, Depart(w.nodes[d]));
    if Seated(w1, x.session) {
      var e :| e in w1.nodes && w1.nodes[e].seat.Some? && w1.nodes[e].seat.value.session == x.session;
      assert w.nodes[e].seat == w1.nodes[e].seat;
    }
  }

  lemma DepartureKeepsNodes(w: World, d: Device)
    requires NodesOk(w) && d in w.nodes && w.nodes[d].seat.Some?
    ensures NodesOk(Broadcast(w, d, Depart(w.nodes[d])))
  {
    var n := w.nodes[d];
    var o := Depart(n);
    var w1 := Broadcast(w, d, o);
    LeavingVacates(w, d);
    DepartingIsOk(w.used, n);
    forall e | e in w1.nodes ensures NodeOk(w1.used, w1.nodes[e]) {
      assert NodeOk(w.used, w.nodes[e]);
      hide RemoveParticipant, Listed;
    }
    forall e, f | SameSeat(w1, e, f) ensures e == f {
      assert SameSeat(w, e, f);
      hide RemoveParticipant, Listed, NodeOk, SignalOk;
    }
    hide NodeOk, RemoveParticipant, Listed, Seated;
    forall e, x | e in w1.nodes && x in w1.nodes[e].inbox ensures SignalOk(w1, x) {
      if x in w.nodes[e].inbox { DepartureKeepsSignals(w, d, x); } else { assert x == o.sent[0]; }
    }
  }

  lemma DepartureKeeps(w: World, d: Device)
    requires Inv(w) && d in w.nodes
    ensures Inv(Broadcast(w, d, Depart(w.nodes[d])))
  {
    var o := Depart(w.nodes[d]);
    var w1 := Broadcast(w, d, o);
    if w.nodes[d].seat.None? {
      assert forall e :: e in w.nodes ==> Given(w.nodes[e], []) == w.nodes[e];
      assert w1 == w;
    } else {
      DepartureKeepsNodes(w, d);
      forall e, f, c, s, t | e != f && Joined(w1, e, c, s) && Joined(w1, f, c, t)
        ensures PairOk(w1.nodes[e], w1.nodes[f], c, s, t)
      {
        assert e != d && f != d && Joined(w, e, c, s) && Joined(w, f, c, t);
        BroadcastGives(w, d, o, e);
        BroadcastGives(w, d, o, f);
        hide PairOk, Broadcast, Given;
        ListenersKeepPair(w.nodes[e], w.nodes[f], c, s, t, o.sent);
      }
      hide NodesOk, Broadcast, PairOk;
    }
  }

  /** What a device that took its seat and connected to a list has, and has sent. */
  lemma SeatedMeans(n: Node, used: map<Session, Conv>, c: Conv, s: Session, rooms: Rooms, r: Outcome,
                    list: seq<Session>)
    requires NodeOk(used, n) && n.seat.None? && s !in used
    requires Connects(Outcome(n.(seat := Some(Seat(c, s)), rooms := rooms), [Signal(Join, c, s, 0)]), r, list)
    requires forall p :: p in list ==> p in used || p == s
    requires forall d, x :: Listed(rooms, d, x) ==> x in used || x == s
    ensures r.node.seat == Some(Seat(c, s)) && r.node.inbox == n.inbox && NodeOk(used[s := c], r.node)
    ensures Signal(Join, c, s, 0) in r.sent
    ensures forall x :: x in r.sent ==> x == Signal(Join, c, s, 0)
                                        || (x == Signal(Offer, c, s, x.recipient) && s < x.recipient)
    ensures forall p :: p in r.node.peers ==> Signal(Offer, c, s, p) in r.sent
  {
    hide Listed;
    assert r.sent[0] == Signal(Join, c, s, 0);
  }

  lemma EnterMeans(n: Node, used: map<Session, Conv>, c: Conv, s: Session)
    requires NodeOk(used, n) && n.seat.None? && s !in used
    ensures var o := Enter(n, c, s);
            && o.node.seat == Some(Seat(c, s)) && o.node.inbox == n.inbox
            && Signal(Join, c, s, 0) in o.sent
            && NodeOk(used[s := c], o.node)
            && (forall x :: x in o.sent ==> x == Signal(Join, c, s, 0)
                                            || (x == Signal(Offer, c, s, x.recipient) && s < x.recipient))
            && (forall p :: p in o.node.peers ==> Signal(Offer, c, s, p) in o.sent)
  {
    var rooms := SetParticipant(n.rooms, c, s);
    var o := Outcome(n.(seat := Some(Seat(c, s)), rooms := rooms), [Signal(Join, c, s, 0)]);
    forall d, x ensures Listed(rooms, d, x) <==> Listed(n.rooms, d, x) || (d == c && x == s) {
      SetListed(n.rooms, c, s, d, x);
    }
    var list := ParticipantsOf(rooms, c);
    assert forall p :: p in list ==> Listed(rooms, c, p);
    ConnectAllConnects(o, list);
    hide Listed, ParticipantsOf, SetParticipant, ConnectAll, Connects;
    SeatedMeans(n, used, c, s, rooms, ConnectAll(o, list), list);
  }

  lemma SittingKeepsNodes(w: World, d: Device, c: Conv, s: Session)
    requires NodesOk(w) && d in w.nodes && w.nodes[d].seat.None? && s !in w.used
    ensures NodesOk(Sit(w, d, c, s))
  {
    var o := Enter(w.nodes[d], c, s);
    var w1 := Sit(w, d, c, s);
    assert NodeOk(w.used, w.nodes[d]);
    EnterMeans(w.nodes[d], w.used, c, s);
    hide Enter;
    forall e | e in w1.nodes ensures NodeOk(w1.used, w1.nodes[e]) {
      assert NodeOk(w.used, w.nodes[e]);
    }
    forall x | SignalOk(w, x) ensures SignalOk(w1, x) {
      if x.kind.Leave? {
        forall e | e in w1.nodes && w1.nodes[e].seat.Some? ensures w1.nodes[e].seat.value.session != x.session {
          assert e == d || w.nodes[e].seat == w1.nodes[e].seat;
        }
      }
    }
    forall e, f | SameSeat(w1, e, f) ensures e == f {
      assert SameSeat(w, e, f) || e == d || f == d;
      assert NodeOk(w.used, w.nodes[e]) && NodeOk(w.used, w.nodes[f]);
    }
    forall e, x | e in w1.nodes && x in w1.nodes[e].inbox ensures SignalOk(w1, x) {
      assert x in w.nodes[e].inbox || x in o.sent;
    }
  }

  /** A newcomer's join reaches the other side of every pair it forms. */
  lemma NewcomerPairs(n: Node, b: Node, used: map<Session, Conv>, c: Conv, s: Session, t: Session)
    requires NodeOk(used, n) && NodeOk(used, b) && n.seat.None? && s !in used && s != t
    ensures var o := Enter(n, c, s);
            && PairOk(Given(o.node, o.sent), Given(b, o.sent), c, s, t)
            && PairOk(Given(b, o.sent), Given(o.node, o.sent), c, t, s)
  {
    var o := Enter(n, c, s);
    EnterMeans(n, used, c, s);
    hide Enter, Listed;
    assert Signal(Join, c, s, 0) in Given(b, o.sent).inbox;
    assert Signal(Join, c, s, 0) in Given(o.node, o.sent).inbox;
  }

  lemma SittingKeeps(w: World, d: Device, c: Conv, s: Session)
    requires Inv(w) && d in w.nodes && w.nodes[d].seat.None? && s !in w.used
    ensures Inv(Sit(w, d, c, s))
  {
    var o := Enter(w.nodes[d], c, s);
    var w1 := Sit(w, d, c, s);
    SittingKeepsNodes(w, d, c, s);
    EnterMeans(w.nodes[d], w.used, c, s);
    forall e, f, c', s', t | e != f && Joined(w1, e, c', s') && Joined(w1, f, c', t)
      ensures PairOk(w1.nodes[e], w1.nodes[f], c', s', t)
    {
      BroadcastGives(w, d, o, e);
      BroadcastGives(w, d, o, f);
      SeatsDiffer(w1, e, f, c', s', t);
      assert NodeOk(w.used, w.nodes[e]) && NodeOk(w.used, w.nodes[f]);
      hide NodesOk, Broadcast, Enter, Given, PairOk, NodeOk;
      if e != d && f != d {
        assert Joined(w, e, c', s') && Joined(w, f, c', t);
        ListenersKeepPair(w.nodes[e], w.nodes[f], c', s', t, o.sent);
      } else if e == d {
        NewcomerPairs(w.nodes[d], w.nodes[f], w.used, c, s, t);
      } else {
        NewcomerPairs(w.nodes[d], w.nodes[e], w.used, c, s, s');
      }
    }
    hide NodesOk, PairOk, Broadcast;
  }

  lemma WipingKeeps(w: World, d: Device)
    requires Inv(w) && d in w.nodes && w.nodes[d].seat.None?
    ensures Inv(Wiped(w, d))
  {
    var w1 := Wiped(w, d);
    forall x | SignalOk(w, x) ensures SignalOk(w1, x) {
      if x.kind.Leave? {
        forall e | e in w1.nodes && w1.nodes[e].seat.Some? ensures w1.nodes[e].seat.value.session != x.session {
          assert w1.nodes[e] == w.nodes[e];
        }
      }
    }
    forall e, f | SameSeat(w1, e, f) ensures e == f {
      assert SameSeat(w, e, f);
    }
    hide PairOk;
    forall e, f, c, s, t | e != f && Joined(w1, e, c, s) && Joined(w1, f, c, t)
      ensures PairOk(w1.nodes[e], w1.nodes[f], c, s, t)
    {
      assert Joined(w, e, c, s) && Joined(w, f, c, t);
    }
  }

  /** Every step of every device keeps the invariant. */
  lemma StepKeeps(w: World, a: Action)
    requires Inv(w) && Enabled(w, a)
    ensures Inv(Next(w, a))
  {
    hide Inv, Broadcast, Depart;
    match a
    case JoinVoice(d, c, s) =>
      if !IsHere(w.nodes[d], c) {
        if w.nodes[d].seat.Some? {
          DepartureKeeps(w, d);
          DepartLeaves(w, d);
          SittingKeeps(Broadcast(w, d, Depart(w.nodes[d])), d, c, s);
        } else {
          SittingKeeps(w, d, c, s);
        }
      }
    case LeaveVoice(d) =>
      DepartureKeeps(w, d);
    case Heartbeat(d) =>
      BeatKeeps(w, d);
    case Reload(d) =>
      DepartureKeeps(w, d);
      DepartLeaves(w, d);
      WipingKeeps(Broadcast(w, d, Depart(w.nodes[d])), d);
    case Deliver(d, at) =>
      ArrivalKeeps(w, d, at);
  }

  lemma DepartLeaves(w: World, d: Device)
    requires d in w.nodes
    ensures var w1 := Broadcast(w, d, Depart(w.nodes[d]));
            w1.nodes.Keys == w.nodes.Keys && w1.used == w.used && w1.nodes[d].seat.None?
  {}
}
