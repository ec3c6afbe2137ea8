/** The voice module of one page, updating its own state in place. */
module VoiceClient {
  import opened Wrappers
  import opened Voice

  class Client {
    var seat: Option<Seat>
    var rooms: Rooms
    var peers: map<Session, PeerState>
    /** Every signal handed to the transport so far. */
    var sent: seq<Signal>

    ghost function Self(): Node
      reads this
    {
      Node(seat, rooms, peers, [])
    }

    ghost function Now(): Outcome
      reads this
    {
      Outcome(Self(), sent)
    }

    constructor ()
      ensures Self() == Node(None, map[], map[], []) && sent == []
    {
      seat, rooms, peers, sent := None, map[], map[], [];
    }

    method SignalTo(x: Signal)
      modifies `sent
      ensures sent == old(sent) + [x]
    {
      sent := sent + [x];
    }

    method Others(list: seq<Session>, s: Session) returns (kept: seq<Session>)
      ensures kept == Without(list, s)
    {
      kept := [];
      var i := 0;
      while i < |list|
        invariant 0 <= i <= |list|
        invariant kept + Without(list[i..], s) == Without(list, s)
      {
        assert list[i..][1..] == list[i + 1..];
        if list[i] != s {
          kept := kept + [list[i]];
        }
        i := i + 1;
      }
      assert list[|list|..] == [];
    }

    method SetParticipant(c: Conv, s: Session)
      modifies `rooms
      ensures rooms == Voice.SetParticipant(old(rooms), c, s)
    {
      var list := Others(ParticipantsOf(rooms, c), s);
      list := list + [s];
      rooms := rooms[c := list];
    }

    method RemoveParticipant(c: Conv, s: Session)
      modifies `rooms
      ensures rooms == Voice.RemoveParticipant(old(rooms), c, s)
    {
      var list := Others(ParticipantsOf(rooms, c), s);
      if |list| > 0 {
        rooms := rooms[c := list];
      } else {
        rooms := rooms - {c};
      }
    }

    method ClosePeer(s: Session)
      modifies `peers
      ensures peers == old(peers) - {s}
    {
      if s !in peers {
        assert peers - {s} == peers;
        return;
      }
      peers := peers - {s};
    }

    method CreatePeer(s: Session, state: PeerState)
      modifies `peers
      ensures peers == old(peers)[s := state]
    {
      ClosePeer(s);
      peers := peers[s := state];
    }

    method OfferTo(remote: Session)
      requires seat.Some?
      modifies `peers, `sent
      ensures peers == old(peers)[remote := HaveLocalOffer]
      ensures sent == old(sent) + [Signal(Offer, seat.value.conv, seat.value.session, remote)]
    {
      CreatePeer(remote, HaveLocalOffer);
      SignalTo(Signal(Offer, seat.value.conv, seat.value.session, remote));
    }

    method AcceptOffer(c: Conv, remote: Session)
      requires seat.Some?
      modifies `peers, `sent
      ensures peers == old(peers)[remote := Stable]
      ensures sent == old(sent) + [Signal(Answer, c, seat.value.session, remote)]
    {
      CreatePeer(remote, Stable);
      SignalTo(Signal(Answer, c, seat.value.session, remote));
    }

    method MaybeConnect(p: Session)
      modifies `peers, `sent
      ensures Now() == Voice.MaybeConnect(old(Now()), p)
    {
      if seat.None? || p == seat.value.session || p in peers {
        return;
      }
      if seat.value.session < p {
        OfferTo(p);
      }
    }

    method ConnectToAll(list: seq<Session>)
      modifies `peers, `sent
      ensures Now() == ConnectAll(old(Now()), list)
    {
      var i := 0;
      while i < |list|
        invariant 0 <= i <= |list|
        invariant unchanged(`seat, `rooms)
        invariant ConnectAll(Now(), list[i..]) == ConnectAll(old(Now()), list)
      {
        assert list[i..][1..] == list[i + 1..];
        MaybeConnect(list[i]);
        i := i + 1;
      }
      assert list[|list|..] == [];
    }

    method LeaveVoice()
      modifies this
      ensures Self() == Depart(old(Self())).node
      ensures sent == old(sent) + Depart(old(Self())).sent
    {
      if seat.None? {
        return;
      }
      var v := seat.value;
      var ids := peers.Keys;
      while ids != {}
        invariant unchanged(`seat, `rooms, `sent)
        invariant peers.Keys == ids
        decreases |ids|
      {
        HasSession(ids);
        var id :| id in ids;
        ClosePeer(id);
        ids := ids - {id};
      }
      RemoveParticipant(v.conv, v.session);
      seat := None;
      SignalTo(Signal(Leave, v.conv, v.session, 0));
    }

    /** `id` is the session id drawn for this visit. */
    method JoinVoice(c: Conv, id: Session)
      modifies this
      ensures var n := old(Self());
              if IsHere(n, c) then Self() == n && sent == old(sent)
              else
                && Self() == Enter(Depart(n).node, c, id).node
                && sent == old(sent) + Depart(n).sent + Enter(Depart(n).node, c, id).sent
    {
      if seat.Some? && seat.value.conv == c {
        return;
      }
      ghost var n := Self();
      if seat.Some? {
        LeaveVoice();
      }
      assert Self() == Depart(n).node;
      ghost var before := sent;
      seat := Some(Seat(c, id));
      SetParticipant(c, id);
      SignalTo(Signal(Join, c, id, 0));
      ghost var o := Outcome(Self(), [Signal(Join, c, id, 0)]);
      ConnectAllAfter(o, before, ParticipantsOf(rooms, c));
      ConnectToAll(ParticipantsOf(rooms, c));
    }

    method Heartbeat()
      modifies `peers, `sent
      ensures Self() == Beat(old(Self())).node && sent == old(sent) + Beat(old(Self())).sent
    {
      if seat.None? {
        return;
      }
      var here := Signal(Here, seat.value.conv, seat.value.session, 0);
      ConnectAllAfter(Outcome(Self(), [here]), sent, ParticipantsOf(rooms, seat.value.conv));
      SignalTo(here);
      ConnectToAll(ParticipantsOf(rooms, seat.value.conv));
    }

    method HandleVoiceSignal(x: Signal)
      modifies this
      ensures Self() == Voice.HandleVoiceSignal(old(Self()), x).node
      ensures sent == old(sent) + Voice.HandleVoiceSignal(old(Self()), x).sent
    {
      if seat.Some? && x.session == seat.value.session {
        return;
      }
      var here := seat.Some? && seat.value.conv == x.conv;
      match x.kind
      case Join =>
        SetParticipant(x.conv, x.session);
        if here {
          var reply := Signal(Here, seat.value.conv, seat.value.session, 0);
          ConnectAfter(Outcome(Self(), [reply]), sent, x.session);
          SignalTo(reply);
          MaybeConnect(x.session);
        }
      case Here =>
        SetParticipant(x.conv, x.session);
        if here {
          ConnectAfter(Outcome(Self(), []), sent, x.session);
          assert sent + [] == sent;
          MaybeConnect(x.session);
        }
      case Leave =>
        RemoveParticipant(x.conv, x.session);
        ClosePeer(x.session);
      case Offer =>
        if here && x.recipient == seat.value.session {
          AcceptOffer(x.conv, x.session);
        }
      case Answer =>
        if !here || x.recipient != seat.value.session {
          return;
        }
        if x.session in peers && peers[x.session] == HaveLocalOffer {
          peers := peers[x.session := Stable];
        }
    }
  }

  /** A set of sessions that is not empty has one to pick. */
  lemma HasSession(ids: set<Session>)
    requires ids != {}
    ensures exists s :: s in ids
  {
    assert (forall s :: s !in ids) ==> ids == {};
  }

  /** What was sent before makes no difference to what connecting sends. */
  lemma ConnectAfter(o: Outcome, before: seq<Signal>, p: Session)
    ensures MaybeConnect(Outcome(o.node, before + o.sent), p)
            == Outcome(MaybeConnect(o, p).node, before + MaybeConnect(o, p).sent)
  {
    if MaybeConnect(o, p).sent != o.sent {
      var last := MaybeConnect(o, p).sent[|o.sent|];
      assert before + o.sent + [last] == before + (o.sent + [last]);
    }
  }

  lemma {:induction false} ConnectAllAfter(o: Outcome, before: seq<Signal>, list: seq<Session>)
    ensures ConnectAll(Outcome(o.node, before + o.sent), list)
            == Outcome(ConnectAll(o, list).node, before + ConnectAll(o, list).sent)
    decreases |list|
  {
    if list != [] {
      ConnectAfter(o, before, list[0]);
      ConnectAllAfter(MaybeConnect(o, list[0]), before, list[1..]);
    }
  }
}
