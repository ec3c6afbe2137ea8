/** What holds of the voice mesh over whole runs. */
module VoiceRuns {
  import opened Wrappers
  import opened Voice
  import opened VoiceMesh

  /** Runs a list of actions; None when one of them is not possible. */
  function Run(w: World, actions: seq<Action>): Option<World>
    decreases |actions|
  {
    if actions == [] then Some(w)
    else if !Enabled(w, actions[0]) then None
    else Run(Next(w, actions[0]), actions[1..])
  }

  function Start(devices: set<Device>): World {
    World(map d | d in devices :: Node(None, map[], map[], []), map[])
  }

  predicate Quiet(w: World) {
    forall d :: d in w.nodes ==> w.nodes[d].inbox == []
  }

  lemma {:induction false} RunKeeps(w: World, actions: seq<Action>)
    requires Inv(w) && Run(w, actions).Some?
    ensures Inv(Run(w, actions).value)
    decreases |actions|
  {
    if actions != [] {
      StepKeeps(w, actions[0]);
      RunKeeps(Next(w, actions[0]), actions[1..]);
    }
  }

  lemma Reachable(devices: set<Device>, actions: seq<Action>)
    requires Run(Start(devices), actions).Some?
    ensures Inv(Run(Start(devices), actions).value)
  {
    assert Inv(Start(devices));
    RunKeeps(Start(devices), actions);
  }

  /** Both ends hold a settled peer for each other and see each other in the list. */
  predicate Connected(w: World, d: Device, e: Device, c: Conv, s: Session, t: Session)
    requires d in w.nodes && e in w.nodes
  {
    && t in w.nodes[d].peers && w.nodes[d].peers[t] == Stable && Listed(w.nodes[d].rooms, c, t)
    && s in w.nodes[e].peers && w.nodes[e].peers[s] == Stable && Listed(w.nodes[e].rooms, c, s)
  }

  /**
   Once no signal is on its way, any two sessions joined to one channel are
   connected, whatever was joined, left, reloaded, sent and reordered before.
   */
  lemma MeshIsComplete(devices: set<Device>, actions: seq<Action>, d: Device, e: Device, c: Conv, s: Session,
                       t: Session)
    requires Run(Start(devices), actions).Some?
    requires var w := Run(Start(devices), actions).value;
             Quiet(w) && d != e && Joined(w, d, c, s) && Joined(w, e, c, t)
    ensures Connected(Run(Start(devices), actions).value, d, e, c, s, t)
  {
    var w := Run(Start(devices), actions).value;
    Reachable(devices, actions);
    SeatsDiffer(w, d, e, c, s, t);
    assert PairOk(w.nodes[d], w.nodes[e], c, s, t) && PairOk(w.nodes[e], w.nodes[d], c, t, s);
    assert NodeOk(w.used, w.nodes[d]) && NodeOk(w.used, w.nodes[e]);
    hide Listed;
  }

  /** Device d, seated as s, has an offer to t outstanding: unanswered, or on its way to somebody. */
  ghost predicate Offering(w: World, s: Session, t: Session) {
    || (exists d :: d in w.nodes && w.nodes[d].seat.Some? && w.nodes[d].seat.value.session == s
                    && t in w.nodes[d].peers && w.nodes[d].peers[t] == HaveLocalOffer)
    || (exists d, c :: d in w.nodes && Signal(Offer, c, s, t) in w.nodes[d].inbox)
  }

  /** Only the smaller session of a pair ever has an offer outstanding, so offers never cross. */
  lemma OffersNeverCross(devices: set<Device>, actions: seq<Action>, s: Session, t: Session)
    requires Run(Start(devices), actions).Some? && Offering(Run(Start(devices), actions).value, s, t)
    ensures s < t && !Offering(Run(Start(devices), actions).value, t, s)
  {
    var w := Run(Start(devices), actions).value;
    Reachable(devices, actions);
    OfferingMeans(w, s, t);
    if Offering(w, t, s) {
      OfferingMeans(w, t, s);
    }
  }

  lemma OfferingMeans(w: World, s: Session, t: Session)
    requires NodesOk(w) && Offering(w, s, t)
    ensures s < t
  {
    if d :| d in w.nodes && w.nodes[d].seat.Some? && w.nodes[d].seat.value.session == s
            && t in w.nodes[d].peers && w.nodes[d].peers[t] == HaveLocalOffer {
      assert NodeOk(w.used, w.nodes[d]);
    } else {
      var d, c :| d in w.nodes && Signal(Offer, c, s, t) in w.nodes[d].inbox;
      assert SignalOk(w, Signal(Offer, c, s, t));
    }
  }

  // --- Signals run dry ----------------------------------------------------------

  /** How many deliveries one signal can lead to among n devices, itself included. */
  function Cost(n: nat, k: Kind): nat {
    match k
    case Leave => 1
    case Answer => 1
    case Offer => 1 + n
    case Here => 1 + n * (1 + n)
    case Join => 1 + n * (1 + n * (1 + n)) + n * (1 + n)
  }

  function InboxCost(n: nat, q: seq<Signal>): nat {
    if q == [] then 0 else Cost(n, q[0].kind) + InboxCost(n, q[1..])
  }

  ghost function Total(n: nat, nodes: map<Device, Node>, ds: set<Device>): nat
    requires ds <= nodes.Keys
  {
    if exists d :: d in ds then
      var d :| d in ds;
      InboxCost(n, nodes[d].inbox) + Total(n, nodes, ds - {d})
    else 0
  }

  lemma {:induction false} InboxCostAdds(n: nat, p: seq<Signal>, q: seq<Signal>)
    ensures InboxCost(n, p + q) == InboxCost(n, p) + InboxCost(n, q)
  {
    if p == [] {
      assert p + q == q;
    } else {
      assert (p + q)[1..] == p[1..] + q;
      InboxCostAdds(n, p[1..], q);
    }
  }

  lemma TakingSaves(n: nat, q: seq<Signal>, at: nat)
    requires at < |q|
    ensures InboxCost(n, q[..at] + q[at + 1..]) + Cost(n, q[at].kind) == InboxCost(n, q)
  {
    assert q == q[..at] + ([q[at]] + q[at + 1..]);
    InboxCostAdds(n, q[..at], [q[at]] + q[at + 1..]);
    InboxCostAdds(n, [q[at]], q[at + 1..]);
    assert InboxCost(n, [q[at]]) == Cost(n, q[at].kind);
    InboxCostAdds(n, q[..at], q[at + 1..]);
  }

  /** Everybody's inbox grew by `extra`, and device d's changed from p to q besides. */
  lemma {:induction false} TotalMoves(n: nat, before: map<Device, Node>, after: map<Device, Node>, ds: set<Device>,
                                      d: Device, extra: nat)
    requires ds <= before.Keys && ds <= after.Keys && d in before && d in after
    requires forall e :: e in ds && e != d ==> InboxCost(n, after[e].inbox) == InboxCost(n, before[e].inbox) + extra
    ensures d in ds ==> Total(n, after, ds) + InboxCost(n, before[d].inbox) + extra
                        == Total(n, before, ds) + InboxCost(n, after[d].inbox) + |ds| * extra
    ensures d !in ds ==> Total(n, after, ds) == Total(n, before, ds) + |ds| * extra
    decreases ds
  {
    if ds != {} {
      var e :| e in ds && Total(n, before, ds) == InboxCost(n, before[e].inbox) + Total(n, before, ds - {e});
      var f :| f in ds && Total(n, after, ds) == InboxCost(n, after[f].inbox) + Total(n, after, ds - {f});
      PickAny(n, after, ds, e);
      TotalMoves(n, before, after, ds - {e}, d, extra);
      assert |ds - {e}| == |ds| - 1;
      assert |ds| * extra == |ds - {e}| * extra + extra by {
        Distribute(|ds| - 1, extra);
      }
    }
  }

  lemma Distribute(k: nat, x: nat)
    ensures (k + 1) * x == k * x + x
  {}

  lemma {:induction false} PickAny(n: nat, nodes: map<Device, Node>, ds: set<Device>, e: Device)
    requires ds <= nodes.Keys && e in ds
    ensures Total(n, nodes, ds) == InboxCost(n, nodes[e].inbox) + Total(n, nodes, ds - {e})
    decreases ds
  {
    var f :| f in ds && Total(n, nodes, ds) == InboxCost(n, nodes[f].inbox) + Total(n, nodes, ds - {f});
    if e != f {
      PickAny(n, nodes, ds - {f}, e);
      PickAny(n, nodes, ds - {e}, f);
      assert ds - {f} - {e} == ds - {e} - {f};
    }
  }

  /** What handling a signal sends costs less, over all n devices, than the signal did. */
  lemma HandlingCostsLess(n: nat, node: Node, x: Signal)
    ensures n * InboxCost(n, HandleVoiceSignal(node, x).sent) < Cost(n, x.kind)
    ensures HandleVoiceSignal(node, x).node.inbox == node.inbox
    ensures HandleVoiceSignal(node, x).node.seat == node.seat
  {
    var o := HandleVoiceSignal(node, x);
    hide SetParticipant, RemoveParticipant, Listed;
    var answers, offers, heres := 1, 1 + n, 1 + n * (1 + n);
    assert |o.sent| <= 2;
    if |o.sent| == 1 {
      assert InboxCost(n, o.sent) == Cost(n, o.sent[0].kind);
      assert x.kind.Join? ==> o.sent[0].kind.Here?;
      assert x.kind.Here? ==> o.sent[0].kind.Offer?;
      assert x.kind.Offer? ==> o.sent[0].kind.Answer?;
    } else if |o.sent| == 2 {
      assert x.kind.Join? && o.sent[0].kind.Here? && o.sent[1].kind.Offer?;
      InboxCostAdds(n, [o.sent[0]], [o.sent[1]]);
      assert o.sent == [o.sent[0]] + [o.sent[1]];
      assert InboxCost(n, o.sent) == heres + offers;
      assert n * (heres + offers) == n * heres + n * offers;
    }
  }

  ghost function Pending(w: World): nat {
    Total(|w.nodes.Keys|, w.nodes, w.nodes.Keys)
  }

  /** Every delivery brings the mesh closer to silence, whatever it makes the receiver send. */
  lemma DeliverySaves(w: World, d: Device, at: nat)
    requires d in w.nodes && at < |w.nodes[d].inbox|
    ensures Pending(Arrive(w, d, at)) < Pending(w)
    ensures Arrive(w, d, at).nodes.Keys == w.nodes.Keys && Arrive(w, d, at).nodes[d].seat == w.nodes[d].seat
    ensures forall e :: e in w.nodes ==> Arrive(w, d, at).nodes[e].seat == w.nodes[e].seat
  {
    var n := |w.nodes.Keys|;
    var q := w.nodes[d].inbox;
    var o := HandleVoiceSignal(Taken(w.nodes[d], at), q[at]);
    var w1 := Arrive(w, d, at);
    HandlingCostsLess(n, Taken(w.nodes[d], at), q[at]);
    TakingSaves(n, q, at);
    InboxCostAdds(n, q[..at] + q[at + 1..], o.sent);
    hide HandleVoiceSignal, Cost, InboxCost;
    forall e | e in w.nodes
      ensures w1.nodes[e].seat == w.nodes[e].seat
      ensures e != d ==> InboxCost(n, w1.nodes[e].inbox) == InboxCost(n, w.nodes[e].inbox) + InboxCost(n, o.sent)
    {
      BroadcastGives(w, d, o, e);
      InboxCostAdds(n, w.nodes[e].inbox, o.sent);
    }
    BroadcastGives(w, d, o, d);
    hide Broadcast;
    TotalMoves(n, w.nodes, w1.nodes, w.nodes.Keys, d, InboxCost(n, o.sent));
  }

  predicate AllDeliveries(actions: seq<Action>) {
    forall i :: 0 <= i < |actions| ==> actions[i].Deliver?
  }

  /** Left alone, the devices fall silent: no run of deliveries is longer than Pending, and seats stay. */
  lemma {:induction false} DeliveriesEnd(w: World, actions: seq<Action>)
    requires AllDeliveries(actions) && Run(w, actions).Some?
    ensures |actions| <= Pending(w)
    ensures Run(w, actions).value.nodes.Keys == w.nodes.Keys
    ensures forall e :: e in w.nodes ==> Run(w, actions).value.nodes[e].seat == w.nodes[e].seat
    decreases |actions|
  {
    if actions != [] {
      var a := actions[0];
      hide Pending, Arrive;
      DeliverySaves(w, a.d, a.at);
      DeliveriesEnd(Next(w, a), actions[1..]);
    }
  }

  lemma {:induction false} RunJoins(w: World, first: seq<Action>, then_: seq<Action>)
    requires Run(w, first).Some?
    ensures Run(w, first + then_) == Run(Run(w, first).value, then_)
    decreases |first|
  {
    if first == [] {
      assert first + then_ == then_;
    } else {
      assert (first + then_)[0] == first[0] && (first + then_)[1..] == first[1..] + then_;
      RunJoins(Next(w, first[0]), first[1..], then_);
    }
  }

  /**
   After any run, deliver what is on its way in any order until nothing is left:
   that takes boundedly many deliveries, and then whoever shares a channel is connected.
   */
  lemma MeshForms(devices: set<Device>, actions: seq<Action>, deliveries: seq<Action>,
                  d: Device, e: Device, c: Conv, s: Session, t: Session)
    requires Run(Start(devices), actions).Some?
    requires var w := Run(Start(devices), actions).value;
             && AllDeliveries(deliveries) && Run(w, deliveries).Some? && Quiet(Run(w, deliveries).value)
             && d != e && Joined(w, d, c, s) && Joined(w, e, c, t)
    ensures var w := Run(Start(devices), actions).value;
            && |deliveries| <= Pending(w)
            && Joined(Run(w, deliveries).value, d, c, s) && Joined(Run(w, deliveries).value, e, c, t)
            && Connected(Run(w, deliveries).value, d, e, c, s, t)
  {
    var w := Run(Start(devices), actions).value;
    DeliveriesEnd(w, deliveries);
    RunJoins(Start(devices), actions, deliveries);
    MeshIsComplete(devices, actions + deliveries, d, e, c, s, t);
  }
}
