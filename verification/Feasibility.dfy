/** The Feasible flag of a route is set when its update arrives and is not looked at again when the node
    sends. Runs that never send an update a flagged route does not beat are free of cycles; without that
    guard two nodes can select each other (module Loop). */
module Feasibility {
  import opened Net
  import opened BabelTypes
  import opened SpeakerState
  import opened Selection
  import opened Network

  // ---- When the flags tell the truth ----

  predicate Flagged(r: Route) { !r.Local() && r.feasible && r.advertised != RETRACTION }

  /** The route passes the feasibility condition against the source table as it is now. */
  predicate Passes(s: State, r: Route) {
    SourceOf(r) in s.sources ==> Feasible(s.sources[SourceOf(r)].distance, r.seqno, r.advertised)
  }

  /** Every flag is still right. */
  ghost predicate Fresh(s: State) { forall k | k in s.routes && Flagged(s.routes[k]) :: Passes(s, s.routes[k]) }

  /** Every flagged route of the source is strictly better than the update about to be sent. */
  ghost predicate SafeToSend(s: State, r: Route) {
    var u := Encoded(s, r, NoAddr);
    u.Some? ==> forall k | k in s.routes :: BeatsSent(s.routes[k], u.value)
  }

  predicate BeatsSent(f: Route, u: Update) {
    Flagged(f) && SourceOf(f) == SourceKey(u.prefix, u.rid) ==> Feasible(Distance(u.seqno, u.metric), f.seqno, f.advertised)
  }

  lemma TightenedFeasible(base: SeqNo, d: Distance, q: SeqNo, m: int, q': SeqNo, m': Metric)
    requires InWindow(base, d.seqno) && InWindow(base, q) && InWindow(base, q')
    ensures Feasible(Tighten(d, q, m), q', m') <==> Feasible(d, q', m') && Feasible(Distance(q, m), q', m')
  {
    WindowIsLinear(base, d.seqno, q);
    WindowIsLinear(base, d.seqno, q');
    WindowIsLinear(base, q, q');
  }

  lemma SendKeepsPasses(g: Ground, w: World, x: Node, r: Route, now: nat, k: RouteKey)
    requires Invariant(g, w) && x in w.nodes && (x, r) in w.seen
    requires k in w.nodes[x].routes && Flagged(w.nodes[x].routes[k]) && Passes(w.nodes[x], w.nodes[x].routes[k])
    ensures var s := w.nodes[x]; var u := Encoded(s, r, NoAddr);
            Passes(EncodeTable(s, r, now), s.routes[k]) <==> (u.Some? ==> BeatsSent(s.routes[k], u.value))
  {
    var s, u := w.nodes[x], Encoded(w.nodes[x], r, NoAddr);
    var f := s.routes[k];
    if u.Some? {
      var key := SourceKey(r.prefix, u.value.rid);
      SentIsWithinOwner(g, w, x, r, u.value);
      assert RouteOk(g, w.nodes, x, f);
      if key in s.sources && SourceOf(f) == key {
        assert SourceOk(g, w.nodes, key, s.sources[key].distance);
        TightenedFeasible(g.base, s.sources[key].distance, u.value.seqno, u.value.metric, f.seqno, f.advertised);
      }
    }
  }

  /** Sending keeps the flags right exactly when the update sent is beaten by every flagged route. */
  lemma SendKeepsFreshIff(g: Ground, w: World, x: Node, r: Route, now: nat)
    requires Invariant(g, w) && x in w.nodes && (x, r) in w.seen && Fresh(w.nodes[x])
    ensures Fresh(EncodeTable(w.nodes[x], r, now)) <==> SafeToSend(w.nodes[x], r)
  {
    var s, u := w.nodes[x], Encoded(w.nodes[x], r, NoAddr);
    assert EncodeTable(s, r, now).routes == s.routes;
    forall k | k in s.routes && Flagged(s.routes[k])
      ensures Passes(EncodeTable(s, r, now), s.routes[k]) <==> (u.Some? ==> BeatsSent(s.routes[k], u.value))
    {
      SendKeepsPasses(g, w, x, r, now, k);
    }
    if Fresh(EncodeTable(s, r, now)) && u.Some? {
      forall k | k in s.routes
        ensures BeatsSent(s.routes[k], u.value)
      {
        if Flagged(s.routes[k]) {
          assert Passes(EncodeTable(s, r, now), s.routes[k]);
        }
      }
    }
  }

  lemma SelectionKeepsFresh(t: State, costs: RouteKey -> Metric, s': State, rep: Report)
    requires Fresh(t) && SelectionStep(t, costs, s', rep)
    ensures Fresh(s')
  {
    hide AllChosen, Printed, Reports, LinkMetric, Smooth, Feasible;
    forall k | k in s'.routes && Flagged(s'.routes[k])
      ensures Passes(s', s'.routes[k])
    {
      assert Reselected(t.routes, costs, s'.selected, s'.routes);
      assert Flagged(t.routes[k]) && Passes(t, t.routes[k]);
    }
  }

  /** Receiving sets the flag from the source table of the moment. */
  lemma ReceiveKeepsFresh(s: State, n: Neighbour, upd: Update, path: Path, now: nat, t: State)
    requires Consistent(s) && Fresh(s) && Native(upd.prefix) && Acquire(s, n, upd, path, now) == Some(t)
    ensures Fresh(t)
  {
    NativeIsNormal(upd.prefix);
    var key := RouteKey(upd.prefix, n.address);
    forall k | k in t.routes && Flagged(t.routes[k])
      ensures Passes(t, t.routes[k])
    {
      if k == key {
        if k in s.routes {
          assert s.routes[k].Key() == k;
        }
        assert SourceOf(t.routes[k]) == SourceKey(upd.prefix, upd.rid);
      } else {
        assert Passes(s, s.routes[k]);
      }
    }
  }

  /** Same flag, same source, same advertisement. */
  predicate SameClaim(a: Route, b: Route) {
    && a.prefix == b.prefix && a.rid == b.rid && a.seqno == b.seqno && a.advertised == b.advertised
    && a.feasible == b.feasible && a.Local() == b.Local()
  }

  /** Every flagged route of t makes a claim it already made in s. */
  ghost predicate Carried(s: State, t: State) {
    && t.sources == s.sources
    && forall k | k in t.routes && Flagged(t.routes[k]) :: k in s.routes && SameClaim(s.routes[k], t.routes[k])
  }

  lemma CarriedIsFresh(s: State, t: State)
    requires Fresh(s) && Carried(s, t)
    ensures Fresh(t)
  {
    forall k | k in t.routes && Flagged(t.routes[k])
      ensures Passes(t, t.routes[k])
    {
      assert Passes(s, s.routes[k]);
    }
  }

  lemma SweepCarries(s: State, now: nat)
    requires forall k | k in s.sources :: now <= s.sources[k].gc
    ensures Carried(s, SweepTable(s, now))
  {
    assert SweepTable(s, now).sources == s.sources;
  }

  lemma AdvertiseCarries(g: Ground, w: World, x: Node, p: Prefix, metric: Metric, t: State)
    requires Invariant(g, w) && x in w.nodes && AdvertiseTable(w.nodes[x], p, metric) == Some(t)
    ensures Carried(w.nodes[x], t)
  {
    hide Invariant, Masked;
    var k := RouteKey(Masked(p), NoAddr);
    if k in w.nodes[x].routes {
      LocalKeyIsLocal(g, w, x, k);
    }
  }

  lemma RequestCarries(g: Ground, w: World, x: Node, p: Prefix, rid: RouterId, q: SeqNo)
    requires Invariant(g, w) && x in w.nodes
    ensures Carried(w.nodes[x], AnswerSeqnoRequest(w.nodes[x], p, rid, q).1)
  {
    RequestTouchesLocal(g, w, x, p, rid, q);
  }

  /** Everything else a node does keeps the flags right. */
  lemma OwnTableKeepsFresh(g: Ground, w: World, x: Node, op: Op, t: State)
    requires Invariant(g, w) && x in w.nodes && OwnOp(w.nodes[x], op) && Fresh(w.nodes[x])
    requires Table(w.nodes[x], op).state == t
    ensures Fresh(t)
  {
    if op.Advertise? && t != w.nodes[x] {
      AdvertiseCarries(g, w, x, op.prefix, op.metric, t);
    } else if op.Sweep? {
      SweepCarries(w.nodes[x], op.now);
    } else if op.SeqnoRequest? {
      RequestCarries(g, w, x, op.prefix, op.rid, op.seqno);
    }
    assert Carried(w.nodes[x], t);
    CarriedIsFresh(w.nodes[x], t);
  }

  lemma LocalKeyIsLocal(g: Ground, w: World, x: Node, k: RouteKey)
    requires Invariant(g, w) && x in w.nodes && k.neighbour == NoAddr && k in w.nodes[x].routes
    ensures w.nodes[x].routes[k].Local()
  {
    assert Consistent(w.nodes[x]) && w.nodes[x].routes[k].Key() == k;
    assert RouteOk(g, w.nodes, x, w.nodes[x].routes[k]);
  }

  lemma SentIsNative(g: Ground, w: World, m: Message)
    requires Invariant(g, w) && m in w.sent
    ensures Native(m.upd.prefix)
  {
    assert MessageOk(g, w.nodes, m);
  }

  lemma StepKeepsFresh(g: Ground, w: World, e: Event, w': World)
    requires Invariant(g, w) && Step(g, w, e, w') && forall x | x in w.nodes :: Fresh(w.nodes[x])
    requires GuardedAt(w, e)
    ensures forall x | x in w'.nodes :: Fresh(w'.nodes[x])
  {
    hide Fresh, Acquire, SelectionStep, SafeToSend;
    var x := e.node;
    var s, s' := w.nodes[x], w'.nodes[x];
    match e
    case Operate(_, op, costs, rep) =>
      OwnTableKeepsFresh(g, w, x, op, Table(s, op).state);
      if Table(s, op).Selecting? {
        SelectionKeepsFresh(Table(s, op).state, costs, s', rep);
      }
    case Deliver(_, m, n, path, now, costs, rep) =>
      var t := Acquire(s, n, m.upd, path, now);
      if t.Some? {
        SentIsNative(g, w, m);
        ReceiveKeepsFresh(s, n, m.upd, path, now, t.value);
        SelectionKeepsFresh(t.value, costs, s', rep);
      }
    case Send(_, r, hop, now) =>
      SendKeepsFreshIff(g, w, x, r, now);
    case Retract(_, upd) =>
  }

  ghost predicate Guarded(worlds: seq<World>, events: seq<Event>)
    requires |worlds| == |events| + 1
  {
    forall i | 0 <= i < |events| :: GuardedAt(worlds[i], events[i])
  }

  ghost predicate GuardedAt(w: World, e: Event) {
    e.Send? && e.node in w.nodes ==> SafeToSend(w.nodes[e.node], e.route)
  }

  lemma StartIsFresh(w: World)
    requires Start(w)
    ensures forall x | x in w.nodes :: Fresh(w.nodes[x])
  {
    forall x | x in w.nodes
      ensures Fresh(w.nodes[x])
    {
      assert Blank(w.nodes[x]);
    }
  }

  lemma {:induction false} GuardedRunIsFresh(g: Ground, worlds: seq<World>, events: seq<Event>, i: nat)
    requires Run(g, worlds, events) && OneNode(g) && Guarded(worlds, events) && i < |worlds|
    ensures forall x | x in worlds[i].nodes :: Fresh(worlds[i].nodes[x])
  {
    hide OneNode, Invariant, Step, Windowed, GuardedAt, Fresh, Start;
    if i == 0 {
      StartIsFresh(worlds[0]);
    } else {
      GuardedRunIsFresh(g, worlds, events, i - 1);
      InvariantHolds(g, worlds, events, i - 1);
      assert StepAt(g, worlds, events, i - 1) && GuardedAt(worlds[i - 1], events[i - 1]);
      StepKeepsFresh(g, worlds[i - 1], events[i - 1], worlds[i]);
    }
  }

  /** A run in which nobody sends an update that some flagged route of the sender does not beat never has a
      cycle of next hops, for any source, at any moment. */
  lemma GuardedRunHasNoCycle(g: Ground, worlds: seq<World>, events: seq<Event>, i: nat, key: SourceKey, path: seq<Node>)
    requires Run(g, worlds, events) && OneNode(g) && Guarded(worlds, events) && i < |worlds|
    requires |path| >= 2 && Chain(g, worlds[i].nodes, key, path)
    ensures path[0] != path[|path| - 1]
  {
    hide OneNode;
    GuardedRunIsFresh(g, worlds, events, i);
    InvariantHolds(g, worlds, events, i);
    forall x | x in worlds[i].nodes
      ensures StillFeasible(worlds[i].nodes, key, x)
    {
      FreshIsStillFeasible(g, worlds[i], key, x);
    }
    FeasibleSelectionsHaveNoCycle(g, worlds, events, i, key, path);
  }

  lemma FreshIsStillFeasible(g: Ground, w: World, key: SourceKey, x: Node)
    requires Invariant(g, w) && x in w.nodes && Fresh(w.nodes[x])
    ensures StillFeasible(w.nodes, key, x)
  {
    var s := w.nodes[x];
    var sel := Prior(s.selected, key.prefix);
    if sel.Some? && sel.value in s.routes {
      assert Consistent(s) && SelectionValid(s, key.prefix) && s.routes[sel.value].Key() == sel.value;
      assert RouteOk(g, w.nodes, x, s.routes[sel.value]);
    }
  }
}
