/**
 One device's part in the voice channels: who it believes is in which channel,
 which peer connections it holds, and what each handler does to them.

 A signal is broadcast to every device of the group, the sender's own included.
 Every handler is one step. Mute, camera and screen flags, candidates and media
 are not part of this model.
 */
module Voice {
  import opened Wrappers

  type Session = int
  type Conv = string

  /** Where a peer connection stands between the two descriptions. */
  datatype PeerState = HaveLocalOffer | Stable

  datatype Kind = Join | Here | Leave | Offer | Answer

  /** `recipient` is read for offers and answers only; the other signals carry 0. */
  datatype Signal = Signal(kind: Kind, conv: Conv, session: Session, recipient: Session)

  datatype Seat = Seat(conv: Conv, session: Session)

  type Rooms = map<Conv, seq<Session>>

  datatype Node = Node(seat: Option<Seat>, rooms: Rooms, peers: map<Session, PeerState>, inbox: seq<Signal>)

  /** A handler leaves a new node and a list of signals to broadcast. */
  datatype Outcome = Outcome(node: Node, sent: seq<Signal>)

  // --- Room lists ---------------------------------------------------------

  function ParticipantsOf(rooms: Rooms, c: Conv): seq<Session> {
    if c in rooms then rooms[c] else []
  }

  function Without(list: seq<Session>, s: Session): (r: seq<Session>)
    ensures forall x :: x in r <==> x in list && x != s
  {
    if list == [] then []
    else
      assert forall x :: x in list <==> x == list[0] || x in list[1..];
      if list[0] == s then Without(list[1..], s) else [list[0]] + Without(list[1..], s)
  }

  function SetParticipant(rooms: Rooms, c: Conv, s: Session): Rooms {
    rooms[c := Without(ParticipantsOf(rooms, c), s) + [s]]
  }

  function RemoveParticipant(rooms: Rooms, c: Conv, s: Session): Rooms {
    var list := Without(ParticipantsOf(rooms, c), s);
    if list != [] then rooms[c := list] else rooms - {c}
  }

  predicate Listed(rooms: Rooms, c: Conv, s: Session) {
    s in ParticipantsOf(rooms, c)
  }

  lemma SetListed(rooms: Rooms, c: Conv, s: Session, d: Conv, x: Session)
    ensures Listed(SetParticipant(rooms, c, s), d, x) <==> Listed(rooms, d, x) || (d == c && x == s)
  {}

  lemma RemoveListed(rooms: Rooms, c: Conv, s: Session, d: Conv, x: Session)
    ensures Listed(RemoveParticipant(rooms, c, s), d, x) <==> Listed(rooms, d, x) && !(d == c && x == s)
  {}

  // --- Peers --------------------------------------------------------------

  /** Offers to p unless it is ourselves, already a peer, or the one to offer. */
  function MaybeConnect(o: Outcome, p: Session): Outcome {
    if o.node.seat.None? || p == o.node.seat.value.session || p in o.node.peers then o
    else if o.node.seat.value.session < p then
      var v := o.node.seat.value;
      Outcome(o.node.(peers := o.node.peers[p := HaveLocalOffer]), o.sent + [Signal(Offer, v.conv, v.session, p)])
    else o
  }

  function ConnectAll(o: Outcome, list: seq<Session>): Outcome
    decreases |list|
  {
    if list == [] then o else ConnectAll(MaybeConnect(o, list[0]), list[1..])
  }

  /** What connecting to a list of sessions amounts to: the peers it adds are those it offers to. */
  predicate Connects(o: Outcome, r: Outcome, list: seq<Session>) {
    && r.node.seat == o.node.seat && r.node.rooms == o.node.rooms && r.node.inbox == o.node.inbox
    && o.sent <= r.sent
    && (forall p :: p in o.node.peers ==> p in r.node.peers && r.node.peers[p] == o.node.peers[p])
    && (forall p :: p in r.node.peers && p !in o.node.peers ==>
          && p in list && o.node.seat.Some? && o.node.seat.value.session < p && r.node.peers[p] == HaveLocalOffer
          && Signal(Offer, o.node.seat.value.conv, o.node.seat.value.session, p) in r.sent)
    && (forall x :: x in r.sent && x !in o.sent ==>
          && o.node.seat.Some? && x.recipient in r.node.peers && x.recipient in list
          && x == Signal(Offer, o.node.seat.value.conv, o.node.seat.value.session, x.recipient)
          && x.session < x.recipient)
    && (o.node.seat.Some? ==> forall p :: p in list && o.node.seat.value.session < p ==> p in r.node.peers)
  }

  lemma {:induction false} ConnectAllConnects(o: Outcome, list: seq<Session>)
    ensures Connects(o, ConnectAll(o, list), list)
    decreases |list|
  {
    if list != [] {
      var o1 := MaybeConnect(o, list[0]);
      var r := ConnectAll(o1, list[1..]);
      ConnectAllConnects(o1, list[1..]);
      assert forall x :: x in o1.sent ==> x in r.sent;
      assert forall x :: x in o1.sent && x !in o.sent ==> x == o1.sent[|o.sent|];
      assert forall p :: p in list <==> p == list[0] || p in list[1..];
    }
  }

  // --- Joining, leaving and the heartbeat -----------------------------------

  /** Leaving the channel: every peer is closed and the others are told. */
  function Depart(n: Node): Outcome {
    match n.seat
    case None => Outcome(n, [])
    case Some(v) =>
      Outcome(n.(seat := None, rooms := RemoveParticipant(n.rooms, v.conv, v.session), peers := map[]),
              [Signal(Leave, v.conv, v.session, 0)])
  }

  /** Taking a seat under a new session id, with the channel left behind already. */
  function Enter(n: Node, c: Conv, s: Session): Outcome {
    var rooms := SetParticipant(n.rooms, c, s);
    ConnectAll(Outcome(n.(seat := Some(Seat(c, s)), rooms := rooms), [Signal(Join, c, s, 0)]),
               ParticipantsOf(rooms, c))
  }

  function Beat(n: Node): Outcome {
    match n.seat
    case None => Outcome(n, [])
    case Some(v) =>
      ConnectAll(Outcome(n, [Signal(Here, v.conv, v.session, 0)]), ParticipantsOf(n.rooms, v.conv))
  }

  // --- Signals ----------------------------------------------------------------

  predicate IsHere(n: Node, c: Conv) {
    n.seat.Some? && n.seat.value.conv == c
  }

  function HandleVoiceSignal(n: Node, x: Signal): Outcome {
    if n.seat.Some? && x.session == n.seat.value.session then Outcome(n, [])
    else
      match x.kind
      case Join =>
        var n1 := n.(rooms := SetParticipant(n.rooms, x.conv, x.session));
        if IsHere(n, x.conv) then
          MaybeConnect(Outcome(n1, [Signal(Here, n.seat.value.conv, n.seat.value.session, 0)]), x.session)
        else Outcome(n1, [])
      case Here =>
        var n1 := n.(rooms := SetParticipant(n.rooms, x.conv, x.session));
        if IsHere(n, x.conv) then MaybeConnect(Outcome(n1, []), x.session) else Outcome(n1, [])
      case Leave =>
        Outcome(n.(rooms := RemoveParticipant(n.rooms, x.conv, x.session), peers := n.peers - {x.session}), [])
      case Offer =>
        if IsHere(n, x.conv) && x.recipient == n.seat.value.session then
          Outcome(n.(peers := n.peers[x.session := Stable]),
                  [Signal(Answer, x.conv, n.seat.value.session, x.session)])
        else Outcome(n, [])
      case Answer =>
        if IsHere(n, x.conv) && x.recipient == n.seat.value.session
           && x.session in n.peers && n.peers[x.session] == HaveLocalOffer then
          Outcome(n.(peers := n.peers[x.session := Stable]), [])
        else Outcome(n, [])
  }
}
