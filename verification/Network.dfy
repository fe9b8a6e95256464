/** A network of speakers: operations at any node, updates sent, and delivered late, twice, out of order or
    never. No node ever holds an advertisement better than its sender's own source entry, so next hops of
    one source form no cycle as long as the selected routes still pass the feasibility condition. */
module Network {
  import opened Net
  import opened BabelTypes
  import opened SpeakerState
  import opened Selection

  /** Speakers have names. Receivers do not see them: a speaker may have a different address on each of its links. */
  type Node = nat

  /** What a run takes for granted: the start of the half window of sequence numbers, and which node is behind an address
      on an interface of a receiver. */
  datatype Ground = Ground(base: SeqNo, peer: (Node, Neighbour) -> Node)

  /** At each receiver an address stands for one node, whatever the interface; route keys have no interface. */
  ghost predicate OneNode(g: Ground) {
    forall x: Node, n: Neighbour, m: Neighbour | n.address == m.address != NoAddr :: g.peer(x, n) == g.peer(x, m)
  }

  /** An update on its way, and who sent it. */
  datatype Message = Message(from: Node, upd: Update)

  type Nodes = map<Node, State>

  /** Routes are sent by pointer, possibly after they left the table: `seen` holds every value a route of a
      node ever had between operations. */
  datatype World = World(nodes: Nodes, seen: set<(Node, Route)>, sent: set<Message>)

  datatype Event =
    | Operate(node: Node, op: Op, costs: RouteKey -> Metric, rep: Report)
    | Deliver(node: Node, msg: Message, via: Neighbour, path: Path, now: nat, costs: RouteKey -> Metric, rep: Report)
    | Send(node: Node, route: Route, hop: Addr, now: nat)
    | Retract(node: Node, upd: Update)

  // ---- Steps ----

  /** Operations a node takes by itself. Source entries do not expire, and what is advertised is not a
      4-in-6 prefix. */
  predicate OwnOp(s: State, op: Op) {
    match op
    case Receive(_, _, _, _) => false
    case Encode(_, _) => false
    case Advertise(p, _) => !Masked(p).addr.Is4In6()
    case Sweep(now) => forall k | k in s.sources :: now <= s.sources[k].gc
    case _ => true
  }

  function Held(x: Node, s: State): set<(Node, Route)> { set k | k in s.routes :: (x, s.routes[k]) }

  function Moved(w: World, x: Node, s: State, out: set<Message>): World {
    World(w.nodes[x := s], w.seen + Held(x, s), w.sent + out)
  }

  function Written(x: Node, u: Option<Update>): set<Message> { if u.None? then {} else {Message(x, u.value)} }

  ghost predicate Step(g: Ground, w: World, e: Event, w': World) {
    && e.node in w.nodes && e.node in w'.nodes
    && var x, s, s' := e.node, w.nodes[e.node], w'.nodes[e.node];
    match e
    case Operate(_, op, costs, rep) =>
      OwnOp(s, op) && OpStep(s, op, costs, s', rep) && w' == Moved(w, x, s', {})
    case Deliver(_, msg, via, path, now, costs, rep) =>
      && msg in w.sent && via.address != NoAddr && g.peer(x, via) == msg.from
      && OpStep(s, Receive(via, msg.upd, path, now), costs, s', rep) && w' == Moved(w, x, s', {})
    case Send(_, r, hop, now) =>
      (x, r) in w.seen && s' == EncodeTable(s, r, now) && w' == Moved(w, x, s', Written(x, Encoded(s, r, hop)))
    case Retract(_, upd) =>
      && upd.metric == RETRACTION && Native(upd.prefix) && InWindow(g.base, upd.seqno)
      && w' == w.(sent := w.sent + {Message(x, upd)})
  }

  /** The sequence numbers the nodes have counted to lie in one half window. */
  ghost predicate Windowed(g: Ground, nodes: Nodes) { forall x | x in nodes :: InWindow(g.base, nodes[x].seqno) }

  ghost predicate Start(w: World) {
    && w.seen == {} && w.sent == {}
    && (forall x | x in w.nodes :: Blank(w.nodes[x]))
    && (forall x, y | x in w.nodes && y in w.nodes && w.nodes[x].cfg.self == w.nodes[y].cfg.self :: x == y)
  }

  predicate Blank(s: State) { s.routes == map[] && s.sources == map[] && s.selected == map[] && s.prints == map[] }

  ghost predicate Run(g: Ground, worlds: seq<World>, events: seq<Event>) {
    && |worlds| == |events| + 1 && Start(worlds[0])
    && (forall i | 0 <= i < |worlds| :: Windowed(g, worlds[i].nodes))
    && Steps(g, worlds, events)
  }

  ghost predicate Steps(g: Ground, worlds: seq<World>, events: seq<Event>)
    requires |worlds| == |events| + 1
  {
    forall i | 0 <= i < |events| :: StepAt(g, worlds, events, i)
  }

  ghost predicate StepAt(g: Ground, worlds: seq<World>, events: seq<Event>, i: nat)
    requires |worlds| == |events| + 1 && i < |events|
  {
    Step(g, worlds[i], events[i], worlds[i + 1])
  }

  // ---- The invariant ----

  function SourceOf(r: Route): SourceKey { SourceKey(r.prefix, r.rid) }

  /** The node a route of x was learnt from. */
  function Sender(g: Ground, x: Node, r: Route): Node
    requires !r.Local()
  {
    g.peer(x, r.neighbour.value)
  }

  /** y has an entry for the source, and d is not better than it. */
  ghost predicate Within(g: Ground, nodes: Nodes, y: Node, key: SourceKey, d: Distance) {
    y in nodes && key in nodes[y].sources && !Better(g.base, d, nodes[y].sources[key].distance)
  }

  ghost predicate WithinOwner(g: Ground, nodes: Nodes, key: SourceKey, d: Distance) {
    forall o | o in nodes && nodes[o].cfg.self == key.rid :: Within(g, nodes, o, key, d)
  }

  /** What holds of a route also between a table change and the selection that follows. */
  ghost predicate CoreOk(g: Ground, nodes: Nodes, x: Node, r: Route) {
    && x in nodes && InWindow(g.base, r.seqno) && Native(r.prefix)
    && if r.Local() then r.rid == nodes[x].cfg.self else LearntOk(g, nodes, x, r)
  }

  ghost predicate LearntOk(g: Ground, nodes: Nodes, x: Node, r: Route)
    requires x in nodes && !r.Local()
  {
    && r.neighbour.value.address != NoAddr && Sender(g, x, r) in nodes
    && (r.advertised != RETRACTION ==> Within(g, nodes, Sender(g, x, r), SourceOf(r), Distance(r.seqno, r.advertised)))
    && (r.rid == nodes[x].cfg.self && r.feasible ==> r.advertised == RETRACTION)
  }

  predicate MetricOk(r: Route) {
    r.Local() || r.metric == RETRACTION || (r.advertised != RETRACTION && r.advertised <= r.metric)
  }

  ghost predicate RouteOk(g: Ground, nodes: Nodes, x: Node, r: Route) { CoreOk(g, nodes, x, r) && MetricOk(r) }

  ghost predicate SourceOk(g: Ground, nodes: Nodes, key: SourceKey, d: Distance) {
    InWindow(g.base, d.seqno) && WithinOwner(g, nodes, key, d)
  }

  ghost predicate MessageOk(g: Ground, nodes: Nodes, m: Message) {
    && m.from in nodes && Native(m.upd.prefix) && InWindow(g.base, m.upd.seqno)
    && (m.upd.metric != RETRACTION ==>
          Within(g, nodes, m.from, SourceKey(m.upd.prefix, m.upd.rid), Distance(m.upd.seqno, m.upd.metric)))
  }

  ghost predicate TablesOk(g: Ground, nodes: Nodes) {
    && (forall x, k | x in nodes && k in nodes[x].routes :: RouteOk(g, nodes, x, nodes[x].routes[k]))
    && (forall x, key | x in nodes && key in nodes[x].sources :: SourceOk(g, nodes, key, nodes[x].sources[key].distance))
  }

  ghost predicate Peers(nodes: Nodes) {
    && (forall x | x in nodes :: Consistent(nodes[x]))
    && (forall x, y | x in nodes && y in nodes && nodes[x].cfg.self == nodes[y].cfg.self :: x == y)
  }

  ghost predicate Invariant(g: Ground, w: World) {
    && Peers(w.nodes) && TablesOk(g, w.nodes)
    && (forall h | h in w.seen :: RouteOk(g, w.nodes, h.0, h.1))
    && (forall m | m in w.sent :: MessageOk(g, w.nodes, m))
  }

  // ---- Distances only improve ----

  lemma NotBetterIsTransitive(base: SeqNo, a: Distance, b: Distance, c: Distance)
    requires !Better(base, a, b) && !Better(base, b, c)
    ensures !Better(base, a, c)
  {
    OffsetsDiffer(base, a.seqno, b.seqno);
    OffsetsDiffer(base, b.seqno, c.seqno);
  }

  lemma OffsetsDiffer(base: SeqNo, p: SeqNo, q: SeqNo)
    ensures p == q <==> Offset(base, p) == Offset(base, q)
  {
  }

  /** Identities stay, and every source entry stays or improves. */
  ghost predicate Grows(g: Ground, nodes: Nodes, nodes': Nodes) {
    && nodes'.Keys == nodes.Keys
    && forall x | x in nodes :: EntriesGrow(g, nodes[x], nodes'[x])
  }

  ghost predicate EntriesGrow(g: Ground, s: State, s': State) {
    && s'.cfg.self == s.cfg.self
    && forall key | key in s.sources ::
         key in s'.sources && !Better(g.base, s.sources[key].distance, s'.sources[key].distance)
  }

  lemma WithinGrows(g: Ground, nodes: Nodes, nodes': Nodes, y: Node, key: SourceKey, d: Distance)
    requires Grows(g, nodes, nodes') && Within(g, nodes, y, key, d)
    ensures Within(g, nodes', y, key, d)
  {
    assert EntriesGrow(g, nodes[y], nodes'[y]);
    NotBetterIsTransitive(g.base, d, nodes[y].sources[key].distance, nodes'[y].sources[key].distance);
  }

  lemma CoreGrows(g: Ground, nodes: Nodes, nodes': Nodes, x: Node, r: Route)
    requires Grows(g, nodes, nodes') && CoreOk(g, nodes, x, r)
    ensures CoreOk(g, nodes', x, r)
  {
    assert EntriesGrow(g, nodes[x], nodes'[x]);
    if !r.Local() && r.advertised != RETRACTION {
      WithinGrows(g, nodes, nodes', Sender(g, x, r), SourceOf(r), Distance(r.seqno, r.advertised));
    }
  }

  lemma SourceGrows(g: Ground, nodes: Nodes, nodes': Nodes, key: SourceKey, d: Distance)
    requires Grows(g, nodes, nodes') && SourceOk(g, nodes, key, d)
    ensures SourceOk(g, nodes', key, d)
  {
    forall o | o in nodes' && nodes'[o].cfg.self == key.rid
      ensures Within(g, nodes', o, key, d)
    {
      assert EntriesGrow(g, nodes[o], nodes'[o]);
      WithinGrows(g, nodes, nodes', o, key, d);
    }
  }

  lemma MessageGrows(g: Ground, nodes: Nodes, nodes': Nodes, m: Message)
    requires Grows(g, nodes, nodes') && MessageOk(g, nodes, m)
    ensures MessageOk(g, nodes', m)
  {
    if m.upd.metric != RETRACTION {
      WithinGrows(g, nodes, nodes', m.from, SourceKey(m.upd.prefix, m.upd.rid), Distance(m.upd.seqno, m.upd.metric));
    }
  }

  /** The invariant after a step, from what is new in it. */
  lemma InvariantGrows(g: Ground, w: World, x: Node, s': State, out: set<Message>)
    requires Invariant(g, w) && x in w.nodes
    requires Grows(g, w.nodes, w.nodes[x := s']) && Consistent(s')
    requires forall k | k in s'.routes :: RouteOk(g, w.nodes, x, s'.routes[k])
    requires forall key | key in s'.sources :: SourceOk(g, w.nodes[x := s'], key, s'.sources[key].distance)
    requires forall m | m in out :: MessageOk(g, w.nodes[x := s'], m)
    ensures Invariant(g, Moved(w, x, s', out))
  {
    var nodes' := w.nodes[x := s'];
    forall y, k | y in nodes' && k in nodes'[y].routes
      ensures RouteOk(g, nodes', y, nodes'[y].routes[k])
    {
      CoreGrows(g, w.nodes, nodes', y, nodes'[y].routes[k]);
    }
    forall y, key | y in nodes' && key in nodes'[y].sources
      ensures SourceOk(g, nodes', key, nodes'[y].sources[key].distance)
    {
      if y != x {
        SourceGrows(g, w.nodes, nodes', key, nodes'[y].sources[key].distance);
      }
    }
    forall h | h in w.seen + Held(x, s')
      ensures RouteOk(g, nodes', h.0, h.1)
    {
      CoreGrows(g, w.nodes, nodes', h.0, h.1);
    }
    forall m | m in w.sent + out
      ensures MessageOk(g, nodes', m)
    {
      if m in w.sent {
        MessageGrows(g, w.nodes, nodes', m);
      }
    }
    PeersKept(w.nodes, x, s', g);
  }

  lemma PeersKept(nodes: Nodes, x: Node, s': State, g: Ground)
    requires Peers(nodes) && x in nodes && Consistent(s') && Grows(g, nodes, nodes[x := s'])
    ensures Peers(nodes[x := s'])
  {
    assert EntriesGrow(g, nodes[x], nodes[x := s'][x]);
  }

  // ---- Operations that do not send ----

  /** Not better than the entry means not feasible. */
  lemma WithinIsInfeasible(g: Ground, nodes: Nodes, y: Node, key: SourceKey, d: Distance)
    requires Within(g, nodes, y, key, d) && InWindow(g.base, d.seqno) && InWindow(g.base, nodes[y].sources[key].distance.seqno)
    requires 0 <= d.metric < 0x1_0000
    ensures !Feasible(nodes[y].sources[key].distance, d.seqno, d.metric)
  {
    WindowIsLinear(g.base, nodes[y].sources[key].distance.seqno, d.seqno);
  }

  /** A finite update for a source of the receiver's own comes back no better than the receiver's entry. */
  lemma EchoIsInfeasible(g: Ground, w: World, x: Node, m: Message)
    requires Invariant(g, w) && x in w.nodes && MessageOk(g, w.nodes, m)
    requires m.upd.rid == w.nodes[x].cfg.self && m.upd.metric != RETRACTION
    ensures !UpdateFeasible(w.nodes[x], SourceKey(m.upd.prefix, m.upd.rid), m.upd)
  {
    var key, d := SourceKey(m.upd.prefix, m.upd.rid), Distance(m.upd.seqno, m.upd.metric);
    var e := w.nodes[m.from].sources[key].distance;
    assert SourceOk(g, w.nodes, key, e);
    assert Within(g, w.nodes, x, key, e);
    var own := w.nodes[x].sources[key].distance;
    NotBetterIsTransitive(g.base, d, e, own);
    assert SourceOk(g, w.nodes, key, own);
    WithinIsInfeasible(g, w.nodes, x, key, d);
  }

  /** The route under this address was learnt from the same node. */
  lemma KnownSender(g: Ground, x: Node, r: Route, n: Neighbour)
    requires OneNode(g) && !r.Local() && r.neighbour.value.address == n.address != NoAddr
    ensures Sender(g, x, r) == g.peer(x, n)
  {
  }

  lemma DeliveredRouteIsOk(g: Ground, w: World, x: Node, m: Message, n: Neighbour, path: Path, now: nat, t: State)
    requires Invariant(g, w) && OneNode(g) && x in w.nodes && m in w.sent && n.address != NoAddr && g.peer(x, n) == m.from
    requires Acquire(w.nodes[x], n, m.upd, path, now) == Some(t)
    ensures forall k | k in t.routes :: CoreOk(g, w.nodes, x, t.routes[k])
    ensures t.sources == w.nodes[x].sources && t.cfg == w.nodes[x].cfg
  {
    hide OneNode;
    assert MessageOk(g, w.nodes, m);
    NativeIsNormal(m.upd.prefix);
    var s := w.nodes[x];
    var k := RouteKey(m.upd.prefix, n.address);
    if m.upd.rid == s.cfg.self && m.upd.metric != RETRACTION {
      EchoIsInfeasible(g, w, x, m);
    }
    if k in s.routes {
      assert Consistent(s) && s.routes[k].Key() == k;
      assert RouteOk(g, w.nodes, x, s.routes[k]);
      KnownSender(g, x, s.routes[k], n);
    }
    assert CoreOk(g, w.nodes, x, t.routes[k]);
    forall j | j in t.routes
      ensures CoreOk(g, w.nodes, x, t.routes[j])
    {
      if j != k {
        assert RouteOk(g, w.nodes, x, s.routes[j]);
      }
    }
  }

  lemma AdvertisedRouteIsOk(g: Ground, w: World, x: Node, p: Prefix, metric: Metric, t: State)
    requires Invariant(g, w) && x in w.nodes && p.Valid() && !Masked(p).addr.Is4In6()
    requires AdvertiseTable(w.nodes[x], p, metric) == Some(t) && InWindow(g.base, t.seqno)
    ensures forall k | k in t.routes :: CoreOk(g, w.nodes, x, t.routes[k])
  {
    MaskedIdempotent(p);
    var s, k := w.nodes[x], RouteKey(Masked(p), NoAddr);
    if k in s.routes {
      assert Consistent(s) && s.routes[k].Key() == k;
      assert RouteOk(g, w.nodes, x, s.routes[k]);
    }
    forall j | j in t.routes
      ensures CoreOk(g, w.nodes, x, t.routes[j])
    {
      if j != k {
        assert RouteOk(g, w.nodes, x, s.routes[j]);
      }
    }
  }

  /** A sequence number request only ever touches a local route. */
  lemma RequestTouchesLocal(g: Ground, w: World, x: Node, p: Prefix, rid: RouterId, q: SeqNo)
    requires Invariant(g, w) && x in w.nodes
    ensures var s := w.nodes[x];
            var t := AnswerSeqnoRequest(s, p, rid, q).1;
            t == s || exists k :: k in s.routes && s.routes[k].Local()
                        && t == s.(seqno := t.seqno, routes := s.routes[k := s.routes[k].(seqno := t.seqno)])
  {
    var s := w.nodes[x];
    var t := AnswerSeqnoRequest(s, p, rid, q).1;
    if t != s {
      var k := Prior(s.selected, Masked(p)).value;
      assert Consistent(s) && SelectionValid(s, Masked(p));
      assert RouteOk(g, w.nodes, x, s.routes[k]);
      assert s.routes[k].Local();
    }
  }

  lemma RequestedRoutesAreOk(g: Ground, w: World, x: Node, p: Prefix, rid: RouterId, q: SeqNo, t: State)
    requires Invariant(g, w) && x in w.nodes
    requires t == AnswerSeqnoRequest(w.nodes[x], p, rid, q).1 && InWindow(g.base, t.seqno)
    ensures forall k | k in t.routes :: RouteOk(g, w.nodes, x, t.routes[k])
    ensures t.sources == w.nodes[x].sources && t.cfg == w.nodes[x].cfg
  {
    RequestTouchesLocal(g, w, x, p, rid, q);
    var s := w.nodes[x];
    forall j | j in t.routes
      ensures RouteOk(g, w.nodes, x, t.routes[j])
    {
      assert RouteOk(g, w.nodes, x, s.routes[j]);
    }
  }

  lemma ExpiredRoutesAreOk(g: Ground, w: World, x: Node, now: nat)
    requires Invariant(g, w) && x in w.nodes
    ensures forall k | k in SweepTable(w.nodes[x], now).routes :: CoreOk(g, w.nodes, x, SweepTable(w.nodes[x], now).routes[k])
  {
    var s, t := w.nodes[x], SweepTable(w.nodes[x], now);
    forall k | k in t.routes
      ensures CoreOk(g, w.nodes, x, t.routes[k])
    {
      assert RouteOk(g, w.nodes, x, s.routes[k]);
    }
  }

  /** The table change of an operation of the node's own keeps sources and well-formed routes. */
  lemma OwnTableIsOk(g: Ground, w: World, x: Node, op: Op, t: State)
    requires Invariant(g, w) && x in w.nodes && OwnOp(w.nodes[x], op)
    requires Table(w.nodes[x], op).state == t && InWindow(g.base, t.seqno)
    ensures forall k | k in t.routes :: CoreOk(g, w.nodes, x, t.routes[k])
    ensures Table(w.nodes[x], op).Quiet? ==> forall k | k in t.routes :: RouteOk(g, w.nodes, x, t.routes[k])
    ensures t.sources == w.nodes[x].sources && t.cfg.self == w.nodes[x].cfg.self
  {
    hide CoreOk, MetricOk, Consistent, SourceOk, MessageOk;
    var s := w.nodes[x];
    forall k | k in s.routes
      ensures RouteOk(g, w.nodes, x, s.routes[k])
    {
    }
    match op
    case Receive(_, _, _, _) =>
    case Advertise(p, m) =>
      if t != s && p.Valid() {
        AdvertisedRouteIsOk(g, w, x, p, m, t);
      }
    case Withdraw(_) =>
    case CostChanged =>
    case NeighbourRemoved(_) =>
    case Sweep(now) => ExpiredRoutesAreOk(g, w, x, now);
    case Encode(_, _) =>
    case SeqnoRequest(p, rid, q) => RequestedRoutesAreOk(g, w, x, p, rid, q, t);
    case EcmpParams(_, _, _) =>
  }

  lemma LinkMetricGrows(cost: Metric, advertised: Metric)
    ensures LinkMetric(cost, advertised) == RETRACTION || (advertised != RETRACTION && advertised <= LinkMetric(cost, advertised))
  {
  }

  /** A selection leaves every route well formed. */
  lemma SelectedRoutesAreOk(g: Ground, nodes: Nodes, x: Node, t: State, costs: RouteKey -> Metric, s': State, rep: Report)
    requires SelectionStep(t, costs, s', rep) && forall k | k in t.routes :: CoreOk(g, nodes, x, t.routes[k])
    ensures forall k | k in s'.routes :: RouteOk(g, nodes, x, s'.routes[k])
  {
    hide AllChosen, Printed, Reports, CoreOk, RouteOk, Reselect;
    forall k | k in s'.routes
      ensures RouteOk(g, nodes, x, s'.routes[k])
    {
      assert CoreOk(g, nodes, x, t.routes[k]);
      ReselectedRouteIsOk(g, nodes, x, t.routes[k], costs(k), Prior(s'.selected, k.prefix));
    }
  }

  lemma ReselectedRouteIsOk(g: Ground, nodes: Nodes, x: Node, r: Route, cost: Metric, sel: Option<RouteKey>)
    requires CoreOk(g, nodes, x, r)
    ensures RouteOk(g, nodes, x, Reselect(r, cost, sel))
  {
    LinkMetricGrows(cost, r.advertised);
    hide LinkMetric, Smooth, InWindow, Native, Within;
  }

  /** Any operation that leaves the sources as they are keeps the invariant once its table is well formed. */
  lemma OperationKeepsInvariant(g: Ground, w: World, x: Node, op: Op, costs: RouteKey -> Metric, s': State, rep: Report, t: State)
    requires Invariant(g, w) && x in w.nodes && OpStep(w.nodes[x], op, costs, s', rep)
    requires Table(w.nodes[x], op).state == t && t.sources == w.nodes[x].sources && t.cfg.self == w.nodes[x].cfg.self
    requires forall k | k in t.routes :: CoreOk(g, w.nodes, x, t.routes[k])
    requires Table(w.nodes[x], op).Quiet? ==> forall k | k in t.routes :: RouteOk(g, w.nodes, x, t.routes[k])
    ensures Invariant(g, Moved(w, x, s', {}))
  {
    OpKeepsInvariant(w.nodes[x], op, costs, s', rep);
    if Table(w.nodes[x], op).Selecting? {
      SelectedRoutesAreOk(g, w.nodes, x, t, costs, s', rep);
    }
    SameSourcesGrow(g, w.nodes, x, s');
    forall key | key in s'.sources
      ensures SourceOk(g, w.nodes[x := s'], key, s'.sources[key].distance)
    {
      assert SourceOk(g, w.nodes, key, w.nodes[x].sources[key].distance);
      SourceGrows(g, w.nodes, w.nodes[x := s'], key, s'.sources[key].distance);
    }
    InvariantGrows(g, w, x, s', {});
  }

  lemma SameSourcesGrow(g: Ground, nodes: Nodes, x: Node, s': State)
    requires x in nodes && s'.sources == nodes[x].sources && s'.cfg.self == nodes[x].cfg.self
    ensures Grows(g, nodes, nodes[x := s'])
  {
    assert nodes[x := s'].Keys == nodes.Keys;
  }

  // ---- Sending ----

  lemma TightenImproves(base: SeqNo, d: Distance, q: SeqNo, m: int)
    requires InWindow(base, d.seqno) && InWindow(base, q)
    ensures !Better(base, d, Tighten(d, q, m)) && !Better(base, Distance(q, m), Tighten(d, q, m))
    ensures Tighten(d, q, m) == d || Tighten(d, q, m) == Distance(q, m)
  {
    WindowIsLinear(base, d.seqno, q);
  }

  /** The sent distance is within the owner's entry already, or the sender is the owner. */
  lemma SentIsWithinOwner(g: Ground, w: World, x: Node, r: Route, u: Update)
    requires Invariant(g, w) && (x, r) in w.seen && x in w.nodes && Encoded(w.nodes[x], r, NoAddr) == Some(u)
    ensures Native(u.prefix) && InWindow(g.base, u.seqno) && u.prefix == r.prefix
    ensures u.rid == w.nodes[x].cfg.self || WithinOwner(g, w.nodes, SourceKey(u.prefix, u.rid), Distance(u.seqno, u.metric))
  {
    assert RouteOk(g, w.nodes, (x, r).0, (x, r).1);
    if !r.Local() {
      var y, key, adv := Sender(g, x, r), SourceOf(r), Distance(r.seqno, r.advertised);
      var e := w.nodes[y].sources[key].distance;
      assert SourceOk(g, w.nodes, key, e);
      forall o | o in w.nodes && w.nodes[o].cfg.self == key.rid
        ensures Within(g, w.nodes, o, key, Distance(u.seqno, u.metric))
      {
        assert Within(g, w.nodes, o, key, e);
        NotBetterIsTransitive(g.base, Distance(u.seqno, u.metric), adv, e);
        NotBetterIsTransitive(g.base, Distance(u.seqno, u.metric), e, w.nodes[o].sources[key].distance);
      }
    }
  }

  lemma SendGrows(g: Ground, w: World, x: Node, key: SourceKey, q: SeqNo, m: int, now: nat, s': State)
    requires Invariant(g, w) && x in w.nodes && InWindow(g.base, q) && s' == SentFinite(w.nodes[x], key, q, m, now)
    ensures Grows(g, w.nodes, w.nodes[x := s']) && Within(g, w.nodes[x := s'], x, key, Distance(q, m))
    ensures InWindow(g.base, s'.sources[key].distance.seqno)
    ensures s'.sources[key].distance == Distance(q, m)
            || (key in w.nodes[x].sources && s'.sources[key].distance == w.nodes[x].sources[key].distance)
  {
    var s := w.nodes[x];
    assert w.nodes[x := s'].Keys == w.nodes.Keys;
    if key in s.sources {
      assert SourceOk(g, w.nodes, key, s.sources[key].distance);
      TightenImproves(g.base, s.sources[key].distance, q, m);
    }
    assert EntriesGrow(g, s, s');
  }

  lemma SentSourceIsOk(g: Ground, w: World, x: Node, key: SourceKey, q: SeqNo, m: int, now: nat, s': State)
    requires Invariant(g, w) && x in w.nodes && InWindow(g.base, q) && s' == SentFinite(w.nodes[x], key, q, m, now)
    requires key.rid == w.nodes[x].cfg.self || WithinOwner(g, w.nodes, key, Distance(q, m))
    ensures SourceOk(g, w.nodes[x := s'], key, s'.sources[key].distance)
  {
    SendGrows(g, w, x, key, q, m, now, s');
    var nodes' := w.nodes[x := s'];
    var d := s'.sources[key].distance;
    forall o | o in nodes' && nodes'[o].cfg.self == key.rid
      ensures Within(g, nodes', o, key, d)
    {
      if o != x {
        if key.rid == w.nodes[x].cfg.self {
          assert false;
        } else if d == Distance(q, m) {
          assert Within(g, w.nodes, o, key, d);
        } else {
          assert SourceOk(g, w.nodes, key, d);
        }
      }
    }
  }

  lemma SendKeepsInvariant(g: Ground, w: World, x: Node, r: Route, hop: Addr, now: nat, s': State)
    requires Invariant(g, w) && x in w.nodes && (x, r) in w.seen && s' == EncodeTable(w.nodes[x], r, now)
    ensures Invariant(g, Moved(w, x, s', Written(x, Encoded(w.nodes[x], r, hop))))
  {
    hide Consistent, Within, WithinOwner, Native, InWindow, Grows;
    var s, u := w.nodes[x], Encoded(w.nodes[x], r, NoAddr);
    var sent := Encoded(s, r, hop);
    OpKeepsInvariant(s, Encode(r, now), k => 0, s', NO_REPORT);
    if u.None? {
      OperationKeepsInvariant(g, w, x, Encode(r, now), k => 0, s', NO_REPORT, s);
    } else {
      var key := SourceKey(r.prefix, u.value.rid);
      var q, m := u.value.seqno, u.value.metric;
      SentIsWithinOwner(g, w, x, r, u.value);
      SendGrows(g, w, x, key, q, m, now, s');
      SentSourceIsOk(g, w, x, key, q, m, now, s');
      forall j | j in s'.sources
        ensures SourceOk(g, w.nodes[x := s'], j, s'.sources[j].distance)
      {
        if j != key {
          assert SourceOk(g, w.nodes, j, s.sources[j].distance);
          SourceGrows(g, w.nodes, w.nodes[x := s'], j, s'.sources[j].distance);
        }
      }
      assert sent == Some(u.value.(nextHop := hop));
      InvariantGrows(g, w, x, s', Written(x, sent));
    }
  }

  // ---- Runs ----

  lemma StepKeepsInvariant(g: Ground, w: World, e: Event, w': World)
    requires Invariant(g, w) && OneNode(g) && Step(g, w, e, w') && Windowed(g, w'.nodes)
    ensures Invariant(g, w')
  {
    hide OneNode;
    var x := e.node;
    var s, s' := w.nodes[x], w'.nodes[x];
    match e
    case Operate(_, op, costs, rep) =>
      var t := Table(s, op).state;
      assert t.seqno == s'.seqno;
      OwnTableIsOk(g, w, x, op, t);
      OperationKeepsInvariant(g, w, x, op, costs, s', rep, t);
    case Deliver(_, m, n, path, now, costs, rep) =>
      var op := Receive(n, m.upd, path, now);
      var t := Table(s, op).state;
      if Acquire(s, n, m.upd, path, now).Some? {
        DeliveredRouteIsOk(g, w, x, m, n, path, now, t);
      }
      OperationKeepsInvariant(g, w, x, op, costs, s', rep, t);
    case Send(_, r, hop, now) =>
      SendKeepsInvariant(g, w, x, r, hop, now, s');
    case Retract(_, upd) =>
      assert w'.nodes == w.nodes;
  }

  lemma BlankIsConsistent(s: State)
    requires Blank(s)
    ensures Consistent(s)
  {
    assert Prefixes(s.routes) == {};
  }

  lemma {:induction false} InvariantHolds(g: Ground, worlds: seq<World>, events: seq<Event>, i: nat)
    requires Run(g, worlds, events) && OneNode(g) && i < |worlds|
    ensures Invariant(g, worlds[i])
  {
    hide OneNode;
    if i == 0 {
      var nodes := worlds[0].nodes;
      forall x | x in nodes
        ensures Consistent(nodes[x])
      {
        BlankIsConsistent(nodes[x]);
      }
    } else {
      InvariantHolds(g, worlds, events, i - 1);
      assert StepAt(g, worlds, events, i - 1);
      StepKeepsInvariant(g, worlds[i - 1], events[i - 1], worlds[i]);
    }
  }

  /** In every run, whatever was lost, repeated or reordered: a finite advertisement that a node holds from a
      neighbour does not pass the feasibility condition against that neighbour's own source entry. */
  lemma NoAdvertisementBeatsItsSender(g: Ground, worlds: seq<World>, events: seq<Event>, i: nat, x: Node, k: RouteKey)
    requires Run(g, worlds, events) && OneNode(g) && i < |worlds| && x in worlds[i].nodes && k in worlds[i].nodes[x].routes
    ensures var nodes, r := worlds[i].nodes, worlds[i].nodes[x].routes[k];
            !r.Local() && r.advertised != RETRACTION ==>
              var y := Sender(g, x, r);
              && y in nodes && SourceOf(r) in nodes[y].sources
              && !Feasible(nodes[y].sources[SourceOf(r)].distance, r.seqno, r.advertised)
  {
    hide OneNode;
    InvariantHolds(g, worlds, events, i);
    var nodes, r := worlds[i].nodes, worlds[i].nodes[x].routes[k];
    assert RouteOk(g, nodes, x, r);
    if !r.Local() && r.advertised != RETRACTION {
      var y := Sender(g, x, r);
      assert SourceOk(g, nodes, SourceOf(r), nodes[y].sources[SourceOf(r)].distance);
      WithinIsInfeasible(g, nodes, y, SourceOf(r), Distance(r.seqno, r.advertised));
    }
  }

  // ---- Cycles ----

  /** x forwards traffic for the source to y. */
  predicate NextHop(g: Ground, nodes: Nodes, key: SourceKey, x: Node, y: Node) {
    && x in nodes && Prior(nodes[x].selected, key.prefix).Some?
    && var k := nodes[x].selected[key.prefix].value;
       && k in nodes[x].routes && !nodes[x].routes[k].Local()
       && nodes[x].routes[k].rid == key.rid && Sender(g, x, nodes[x].routes[k]) == y
  }

  /** x passes the feasibility condition for the route it has selected, now. */
  predicate StillFeasible(nodes: Nodes, key: SourceKey, x: Node)
    requires x in nodes
  {
    var sel := Prior(nodes[x].selected, key.prefix);
    sel.Some? && sel.value in nodes[x].routes && nodes[x].routes[sel.value].rid == key.rid && key in nodes[x].sources ==>
      var r := nodes[x].routes[sel.value];
      r.Local() || Feasible(nodes[x].sources[key].distance, r.seqno, r.advertised)
  }

  predicate Chain(g: Ground, nodes: Nodes, key: SourceKey, path: seq<Node>) {
    forall i | 0 <= i < |path| - 1 :: NextHop(g, nodes, key, path[i], path[i + 1])
  }

  /** y has an entry for the source, and x has none or a strictly worse one. */
  ghost predicate Nearer(g: Ground, nodes: Nodes, key: SourceKey, x: Node, y: Node) {
    && x in nodes && y in nodes && key in nodes[y].sources
    && (key in nodes[x].sources ==> Better(g.base, nodes[y].sources[key].distance, nodes[x].sources[key].distance))
  }

  lemma NextHopIsNearer(g: Ground, w: World, key: SourceKey, x: Node, y: Node)
    requires Invariant(g, w) && NextHop(g, w.nodes, key, x, y) && StillFeasible(w.nodes, key, x)
    ensures Nearer(g, w.nodes, key, x, y)
  {
    var s := w.nodes[x];
    var k := s.selected[key.prefix].value;
    var r := s.routes[k];
    assert Consistent(s) && SelectionValid(s, key.prefix) && r.Key() == k;
    assert RouteOk(g, w.nodes, x, r);
    var d := Distance(r.seqno, r.advertised);
    assert Within(g, w.nodes, y, key, d);
    if key in s.sources {
      assert SourceOk(g, w.nodes, key, s.sources[key].distance);
      WindowIsLinear(g.base, s.sources[key].distance.seqno, r.seqno);
      assert Better(g.base, d, s.sources[key].distance);
      BetterThroughNotBetter(g.base, s.sources[key].distance, d, w.nodes[y].sources[key].distance);
    }
  }

  lemma BetterThroughNotBetter(base: SeqNo, a: Distance, b: Distance, c: Distance)
    requires Better(base, b, a) && !Better(base, b, c)
    ensures Better(base, c, a)
  {
    OffsetsDiffer(base, a.seqno, b.seqno);
    OffsetsDiffer(base, b.seqno, c.seqno);
  }

  lemma NearerIsTransitive(g: Ground, nodes: Nodes, key: SourceKey, x: Node, y: Node, z: Node)
    requires Nearer(g, nodes, key, x, y) && Nearer(g, nodes, key, y, z)
    ensures Nearer(g, nodes, key, x, z)
  {
    if key in nodes[x].sources {
      var a, b, c := nodes[x].sources[key].distance, nodes[y].sources[key].distance, nodes[z].sources[key].distance;
      OffsetsDiffer(g.base, a.seqno, b.seqno);
      OffsetsDiffer(g.base, b.seqno, c.seqno);
    }
  }

  lemma {:induction false} ChainIsNearer(g: Ground, w: World, key: SourceKey, path: seq<Node>)
    requires Invariant(g, w) && |path| >= 2 && Chain(g, w.nodes, key, path)
    requires forall x | x in w.nodes :: StillFeasible(w.nodes, key, x)
    ensures Nearer(g, w.nodes, key, path[0], path[|path| - 1])
  {
    hide Invariant, Nearer, StillFeasible;
    var n := |path| - 2;
    assert NextHop(g, w.nodes, key, path[n], path[n + 1]);
    NextHopIsNearer(g, w, key, path[n], path[n + 1]);
    if n > 0 {
      ChainIsNearer(g, w, key, path[..n + 1]);
      NearerIsTransitive(g, w.nodes, key, path[0], path[n], path[n + 1]);
    }
  }

  /** RFC 8966, section 3.5.1: where every selected route of a source passes the feasibility condition at its
      holder, following next hops never returns to a node. */
  lemma FeasibleSelectionsHaveNoCycle(g: Ground, worlds: seq<World>, events: seq<Event>, i: nat, key: SourceKey, path: seq<Node>)
    requires Run(g, worlds, events) && OneNode(g) && i < |worlds|
    requires forall x | x in worlds[i].nodes :: StillFeasible(worlds[i].nodes, key, x)
    requires |path| >= 2 && Chain(g, worlds[i].nodes, key, path)
    ensures path[0] != path[|path| - 1]
  {
    hide OneNode;
    InvariantHolds(g, worlds, events, i);
    ChainIsNearer(g, worlds[i], key, path);
  }
}
