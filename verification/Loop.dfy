/** Two nodes select each other: a run of three speakers that ends in a cycle of next hops, because a route is
    selected on a Feasible flag that the node's own sending has made wrong. */
module Loop {
  import Lists
  import opened Net
  import opened BabelTypes
  import opened SpeakerState
  import opened Selection
  import opened Network
  import opened Feasibility

  // ---- A selection among routes of one prefix ----

  function Reselecting(routes: map<RouteKey, Route>, costs: RouteKey -> Metric, choice: RouteKey): map<RouteKey, Route> {
    map k | k in routes :: Reselect(routes[k], costs(k), Some(choice))
  }

  /** The state after a selection when all routes are for one prefix. */
  function Chose(t: State, costs: RouteKey -> Metric, choice: RouteKey, fp: Print): State {
    t.(routes := Reselecting(t.routes, costs, choice), selected := map[choice.prefix := Some(choice)],
       prints := map[choice.prefix := fp])
  }

  ghost predicate OnePrefix(t: State, p: Prefix) {
    && KeysMatch(t.routes) && (forall k | k in t.routes :: k.prefix == p)
    && t.selected.Keys == t.prints.Keys && t.selected.Keys <= {p}
  }

  /** One route beats the other candidates, and the previous choice twice. */
  predicate Wins(routes: map<RouteKey, Route>, prev: Option<RouteKey>, choice: RouteKey) {
    && choice in routes && Candidate(routes[choice])
    && (forall k | k in routes && k != choice && Candidate(routes[k]) :: routes[choice].metric < routes[k].metric)
    && (prev.Some? && prev.value in routes && prev.value != choice && Candidate(routes[prev.value]) ==>
          routes[choice].smoothed < routes[prev.value].smoothed)
  }

  lemma WinnerIsChosen(routes: map<RouteKey, Route>, prev: Option<RouteKey>, choice: RouteKey)
    requires Wins(routes, prev, choice)
    ensures Chosen(routes, prev, Some(choice))
  {
    var cands := Candidates(routes);
    assert choice in cands;
    assert !RouteLess(routes[choice], routes[choice]);
    assert Minimal(routes, cands, choice);
    assert Some(choice) == Some(Hysteresis(routes, cands, prev, choice));
  }

  lemma ReselectedByMap(t: State, costs: RouteKey -> Metric, choice: RouteKey, post: State)
    requires forall k | k in t.routes :: k.prefix == choice.prefix
    requires post.routes == Reselecting(t.routes, costs, choice) && post.selected == map[choice.prefix := Some(choice)]
    ensures Reselected(t.routes, costs, post.selected, post.routes)
  {
  }

  lemma AllForOnePrefix(routes: map<RouteKey, Route>, p: Prefix)
    requires forall k | k in routes :: k.prefix == p
    ensures ForPrefix(routes, p) == routes
    ensures routes != map[] ==> Prefixes(routes) == {p}
  {
    if routes != map[] {
      var k :| k in routes;
      assert k.prefix in Prefixes(routes);
    }
  }

  lemma PrintsOf(cfg: Config, routes: map<RouteKey, Route>, sel: RouteKey) returns (fp: Print)
    requires sel in routes
    ensures Prints(cfg, routes, Some(sel), fp)
  {
    var order := Lists.ListOf(routes.Keys);
    fp := PrintOf(routes, ExportCandidates(routes, order, Some(sel), cfg.maxPaths, cfg.slack));
  }

  lemma SelectionOfWinner(t: State, costs: RouteKey -> Metric, p: Prefix, choice: RouteKey) returns (fp: Print, rep: Report)
    requires OnePrefix(t, p) && choice in t.routes && Wins(Reselecting(t.routes, costs, choice), Prior(t.selected, p), choice)
    ensures SelectionStep(t, costs, Chose(t, costs, choice, fp), rep) && OnePrefix(Chose(t, costs, choice, fp), p)
  {
    var after := Reselecting(t.routes, costs, choice);
    fp := PrintsOf(t.cfg, after, choice);
    rep := if Lookup(t.prints, p, []) != fp then Report([p], [choice], []) else NO_REPORT;
    WinnerIsChosen(after, Prior(t.selected, p), choice);
    AllForOnePrefix(t.routes, p);
    AllForOnePrefix(after, p);
    WinnerStep(t, costs, p, choice, Chose(t, costs, choice, fp), after, fp, rep);
    ChoseHasOnePrefix(t, costs, p, choice, fp);
  }

  lemma ChoseHasOnePrefix(t: State, costs: RouteKey -> Metric, p: Prefix, choice: RouteKey, fp: Print)
    requires OnePrefix(t, p) && choice.prefix == p
    ensures OnePrefix(Chose(t, costs, choice, fp), p)
  {
  }

  lemma WinnerStep(t: State, costs: RouteKey -> Metric, p: Prefix, choice: RouteKey, post: State,
                   after: map<RouteKey, Route>, fp: Print, rep: Report)
    requires OnePrefix(t, p) && choice in t.routes && choice.prefix == p && after == Reselecting(t.routes, costs, choice)
    requires Prefixes(t.routes) == {p} && ForPrefix(after, p) == after
    requires Chosen(after, Prior(t.selected, p), Some(choice)) && Prints(t.cfg, after, Some(choice), fp)
    requires post == Chose(t, costs, choice, fp)
    requires rep == if Lookup(t.prints, p, []) != fp then Report([p], [choice], []) else NO_REPORT
    ensures SelectionStep(t, costs, post, rep)
  {
    assert post.selected.Keys == {p} == post.prints.Keys;
    ReselectedByMap(t, costs, choice, post);
    OneReport(t, post, p, choice, rep);
    OneChosen(t, post, p);
    OnePrinted(post, p);
  }

  lemma OneChosen(pre: State, post: State, p: Prefix)
    requires post.selected.Keys == {p} && Chosen(ForPrefix(post.routes, p), Prior(pre.selected, p), post.selected[p])
    ensures AllChosen(pre, post)
  {
  }

  lemma OnePrinted(post: State, p: Prefix)
    requires post.selected.Keys == {p} == post.prints.Keys
    requires Prints(post.cfg, ForPrefix(post.routes, p), post.selected[p], post.prints[p])
    ensures Printed(post)
  {
  }

  lemma OneReport(pre: State, post: State, p: Prefix, choice: RouteKey, rep: Report)
    requires post.selected == map[p := Some(choice)] && p in post.prints && pre.selected.Keys <= {p} && choice.prefix == p
    requires rep == if Lookup(pre.prints, p, []) != post.prints[p] then Report([p], [choice], []) else NO_REPORT
    ensures Reports(pre, post, rep)
  {
    forall q
      ensures Changed(pre, post, q) <==> q == p && Lookup(pre.prints, p, []) != post.prints[p]
    {
    }
    forall q, o
      ensures !Retracts(pre, post, q, o)
    {
    }
  }

  // ---- The run ----

  const NO_PATH := Path(0, 0, -1, 0)

  function Announce(from: Node, p: Prefix, rid: RouterId, metric: Metric): Message {
    Message(from, Update(p, rid, 1, metric, NoAddr))
  }

  lemma Receives(g: Ground, w: World, x: Node, m: Message, n: Neighbour, p: Prefix, costs: RouteKey -> Metric,
                 choice: RouteKey, t: State)
    returns (e: Event, w': World)
    requires x in w.nodes && m in w.sent && n.address != NoAddr && g.peer(x, n) == m.from
    requires Acquire(w.nodes[x], n, m.upd, NO_PATH, 0) == Some(t)
    requires OnePrefix(t, p) && choice in t.routes && Wins(Reselecting(t.routes, costs, choice), Prior(t.selected, p), choice)
    ensures Step(g, w, e, w') && Selects(w, x, t, p, costs, choice, w')
  {
    var fp, rep := SelectionOfWinner(t, costs, p, choice);
    e := Deliver(x, m, n, NO_PATH, 0, costs, rep);
    w' := Moved(w, x, Chose(t, costs, choice, fp), {});
  }

  lemma Operates(g: Ground, w: World, x: Node, op: Op, p: Prefix, costs: RouteKey -> Metric, choice: RouteKey, t: State)
    returns (e: Event, w': World)
    requires x in w.nodes && OwnOp(w.nodes[x], op) && Table(w.nodes[x], op) == Selecting(t)
    requires OnePrefix(t, p) && choice in t.routes && Wins(Reselecting(t.routes, costs, choice), Prior(t.selected, p), choice)
    ensures Step(g, w, e, w') && Selects(w, x, t, p, costs, choice, w')
  {
    var fp, rep := SelectionOfWinner(t, costs, p, choice);
    e := Operate(x, op, costs, rep);
    w' := Moved(w, x, Chose(t, costs, choice, fp), {});
  }

  /** In w' the node x has selected from table t; nothing was sent. */
  ghost predicate Selects(w: World, x: Node, t: State, p: Prefix, costs: RouteKey -> Metric, choice: RouteKey, w': World) {
    && x in w.nodes && x in w'.nodes && w' == Moved(w, x, w'.nodes[x], {})
    && w'.nodes[x] == t.(routes := Reselecting(t.routes, costs, choice), selected := map[p := Some(choice)],
                         prints := w'.nodes[x].prints)
    && OnePrefix(w'.nodes[x], p)
  }

  lemma Sends(g: Ground, w: World, x: Node, r: Route) returns (e: Event, w': World)
    requires x in w.nodes && (x, r) in w.seen
    ensures Step(g, w, e, w')
    ensures w' == Moved(w, x, EncodeTable(w.nodes[x], r, 0), Written(x, Encoded(w.nodes[x], r, NoAddr)))
  {
    e := Send(x, r, NoAddr, 0);
    w' := Moved(w, x, EncodeTable(w.nodes[x], r, 0), Written(x, Encoded(w.nodes[x], r, NoAddr)));
  }

  /** 10.0.0.0/8 */
  const HOME := Prefix(V4([10, 0, 0, 0]), 8)

  lemma HomeIsPlain()
    ensures HOME.Valid() && Native(HOME)
  {
    var o: seq<Byte> := [10, 0, 0, 0];
    forall i | 0 <= i < 4
      ensures MaskOctets(o, 8)[i] == o[i]
    {
    }
    assert MaskOctets(o, 8) == o;
  }

  /** Three nodes that route to HOME; o originates it. Their configuration is any with positive times, and each
      has any address on any interface of a receiver. */
  datatype Scene = Scene(o: Node, x: Node, y: Node, ro: RouterId, rx: RouterId, ry: RouterId,
                         link: (Node, Node) -> Neighbour, peer: (Node, Neighbour) -> Node,
                         maxPaths: int, slack: nat, penalty: real, hold: nat, gc: nat)
  {
    const p := HOME
    const own := RouteKey(HOME, NoAddr)
    const ground := Ground(0, peer)

    // The routes that x and y learn, each named by holder and sender.
    const xo := From(x, o)
    const xy := From(x, y)
    const yo := From(y, o)
    const yx := From(y, x)

    predicate Valid() {
      && o != x && o != y && x != y && Sees(x, o) && Sees(x, y) && Sees(y, o) && Sees(y, x)
      && ro != rx && ro != ry && rx != ry && ro != UNSPECIFIED_ID
      && maxPaths >= 1 && penalty >= 0.0 && hold > 0 && gc > 0
    }

    /** Node a has a link to node b. */
    predicate Sees(a: Node, b: Node) { link(a, b).address != NoAddr && peer(a, link(a, b)) == b }

    /** The others have different addresses at x, and at y. */
    predicate Apart() { link(x, o).address != link(x, y).address && link(y, o).address != link(y, x).address }

    function ConfigOf(self: RouterId): Config { Config(self, maxPaths, slack, penalty, hold, gc) }

    function From(at: Node, z: Node): RouteKey { RouteKey(p, link(at, z).address) }
  }

  /** A route that x learnt at time 0 from `from`. */
  function Via(c: Scene, x: Node, from: Node, advertised: Metric, metric: Metric, smoothed: Metric, selected: bool): Route {
    Route(c.p, c.ro, Some(c.link(x, from)), advertised, metric, smoothed, 1, c.link(x, from).address, true, selected,
          Some(c.hold), false, NO_PATH)
  }

  function Fresh0(c: Scene, self: RouterId): State { State(c.ConfigOf(self), map[], map[], map[], map[], 0) }

  function World0(c: Scene): World {
    World(map[c.o := Fresh0(c, c.ro), c.x := Fresh0(c, c.rx), c.y := Fresh0(c, c.ry)], {}, {})
  }

  /** The local route of the origin, before and after it is selected. */
  function Origin(c: Scene, selected: bool): Route {
    Route(c.p, c.ro, None, 0, 0, 0, 1, NoAddr, true, selected, None, false, NO_PATH)
  }

  lemma AdvertiseComputes(c: Scene, s: State, t: State)
    requires c.Valid() && s == Fresh0(c, c.ro) && t == s.(seqno := 1, routes := map[c.own := Origin(c, false)])
    ensures AdvertiseTable(s, c.p, 0) == Some(t) && OnePrefix(t, c.p)
  {
    HomeIsPlain();
    assert c.own !in s.routes;
  }

  lemma OriginWins(c: Scene, costs: RouteKey -> Metric)
    ensures var k := c.own;
            var after := Reselecting(map[k := Origin(c, false)], costs, k);
            after == map[k := Origin(c, true)] && Wins(after, None, k)
  {
  }

  lemma OriginAdvertises(c: Scene, w: World) returns (e: Event, w': World)
    requires c.Valid() && w == World0(c)
    ensures Step(c.ground, w, e, w') && w'.nodes == w.nodes[c.o := w'.nodes[c.o]]
    ensures w'.nodes[c.o].cfg.self == c.ro && w'.nodes[c.o].seqno == 1 && (c.o, Origin(c, true)) in w'.seen
  {
    var k, s := c.own, w.nodes[c.o];
    var t := s.(seqno := 1, routes := map[k := Origin(c, false)]);
    var costs: RouteKey -> Metric := k => 0;
    HomeIsPlain();
    AdvertiseComputes(c, s, t);
    OriginWins(c, costs);
    e, w' := Operates(c.ground, w, c.o, Advertise(c.p, 0), c.p, costs, k, t);
    assert w'.nodes[c.o].routes[k] == Origin(c, true);
  }

  lemma OriginSends(c: Scene, w: World) returns (e: Event, w': World)
    requires c.Valid() && c.o in w.nodes && w.nodes[c.o].cfg.self == c.ro && (c.o, Origin(c, true)) in w.seen
    ensures Step(c.ground, w, e, w') && w'.nodes == w.nodes[c.o := w'.nodes[c.o]] && w'.nodes[c.o].seqno == w.nodes[c.o].seqno
    ensures Announce(c.o, c.p, c.ro, 0) in w'.sent && w.sent <= w'.sent
  {
    e, w' := Sends(c.ground, w, c.o, Origin(c, true));
    assert Encoded(w.nodes[c.o], Origin(c, true), NoAddr) == Some(Announce(c.o, c.p, c.ro, 0).upd);
  }

  /** The state of x or y: what it has learnt, sent and selected. */
  function StateOf(c: Scene, self: RouterId, routes: map<RouteKey, Route>, entry: Option<Distance>, sel: Option<RouteKey>,
                prints: map<Prefix, Print>): State
  {
    State(c.ConfigOf(self), routes,
          if entry.None? then map[] else map[SourceKey(c.p, c.ro) := Source(entry.value, c.gc)],
          if sel.None? then map[] else map[c.p := sel], prints, 0)
  }

  ghost predicate Knows(s: State, c: Scene, self: RouterId, routes: map<RouteKey, Route>, entry: Option<Distance>,
                        sel: Option<RouteKey>)
  {
    s == StateOf(c, self, routes, entry, sel, s.prints) && OnePrefix(s, c.p)
  }

  /** The table after a first update from `from`. */
  function Learnt(s: State, c: Scene, x: Node, from: Node, metric: Metric): State {
    s.(routes := s.routes[c.From(x, from) := Via(c, x, from, metric, 0, 0, false)])
  }

  lemma LearnComputes(c: Scene, s: State, x: Node, from: Node, metric: Metric)
    requires c.Valid() && c.Sees(x, from) && s.cfg.routeExpiry == c.hold && c.From(x, from) !in s.routes && metric != RETRACTION
    requires UpdateFeasible(s, SourceKey(c.p, c.ro), Announce(from, c.p, c.ro, metric).upd) && OnePrefix(s, c.p)
    ensures Acquire(s, c.link(x, from), Announce(from, c.p, c.ro, metric).upd, NO_PATH, 0)
         == Some(Learnt(s, c, x, from, metric))
    ensures OnePrefix(Learnt(s, c, x, from, metric), c.p)
  {
    HomeIsPlain();
    NativeIsNormal(c.p);
  }

  /** A node hears of the source from one more neighbour, and selects. */
  lemma Hears(c: Scene, w: World, x: Node, from: Node, metric: Metric, costs: RouteKey -> Metric, choice: RouteKey)
    returns (e: Event, w': World)
    requires c.Valid() && x in w.nodes && c.Sees(x, from) && metric != RETRACTION && Announce(from, c.p, c.ro, metric) in w.sent
    requires w.nodes[x].cfg.routeExpiry == c.hold && c.From(x, from) !in w.nodes[x].routes && OnePrefix(w.nodes[x], c.p)
    requires UpdateFeasible(w.nodes[x], SourceKey(c.p, c.ro), Announce(from, c.p, c.ro, metric).upd)
    requires choice in Learnt(w.nodes[x], c, x, from, metric).routes
    requires Wins(Reselecting(Learnt(w.nodes[x], c, x, from, metric).routes, costs, choice), Prior(w.nodes[x].selected, c.p), choice)
    ensures Step(c.ground, w, e, w') && Selects(w, x, Learnt(w.nodes[x], c, x, from, metric), c.p, costs, choice, w')
  {
    LearnComputes(c, w.nodes[x], x, from, metric);
    e, w' := Receives(c.ground, w, x, Announce(from, c.p, c.ro, metric), c.link(x, from), c.p, costs, choice,
                      Learnt(w.nodes[x], c, x, from, metric));
  }

  lemma FirstRoute(c: Scene, x: Node, from: Node, metric: Metric, cost: Metric, after: Route)
    requires cost + metric < RETRACTION && after == Via(c, x, from, metric, cost + metric, cost + metric, true)
    ensures var k := c.From(x, from);
            var got := Reselecting(map[k := Via(c, x, from, metric, 0, 0, false)], j => cost, k);
            got == map[k := after] && Wins(got, None, k)
  {
  }

  lemma HearsFirst(c: Scene, w: World, x: Node, self: RouterId, from: Node, metric: Metric, cost: Metric, r: Route)
    returns (e: Event, w': World)
    requires c.Valid() && x in w.nodes && Knows(w.nodes[x], c, self, map[], None, None)
    requires c.Sees(x, from) && cost + metric < RETRACTION && Announce(from, c.p, c.ro, metric) in w.sent
    requires r == Via(c, x, from, metric, cost + metric, cost + metric, true)
    ensures Step(c.ground, w, e, w') && w'.nodes == w.nodes[x := w'.nodes[x]] && w'.sent == w.sent
    ensures w.seen <= w'.seen && (x, r) in w'.seen
    ensures Knows(w'.nodes[x], c, self, map[c.From(x, from) := r], None, Some(c.From(x, from)))
  {
    var k := c.From(x, from);
    FirstRoute(c, x, from, metric, cost, r);
    assert Learnt(w.nodes[x], c, x, from, metric).routes == map[k := Via(c, x, from, metric, 0, 0, false)];
    e, w' := Hears(c, w, x, from, metric, j => cost, k);
    assert w'.nodes[x].routes[k] == r;
  }

  /** A second neighbour is heard; `after` is the table once `choice` is selected from both. */
  lemma HearsSecond(c: Scene, w: World, x: Node, self: RouterId, k0: RouteKey, r0: Route, entry: Option<Distance>,
                    from: Node, metric: Metric, costs: RouteKey -> Metric, choice: RouteKey, after: map<RouteKey, Route>)
    returns (e: Event, w': World)
    requires c.Valid() && x in w.nodes && Knows(w.nodes[x], c, self, map[k0 := r0], entry, Some(k0))
    requires c.Sees(x, from) && k0 != c.From(x, from) && metric != RETRACTION && Announce(from, c.p, c.ro, metric) in w.sent
    requires entry.Some? ==> Feasible(entry.value, 1, metric)
    requires choice in {k0, c.From(x, from)}
    requires after == Reselecting(map[k0 := r0, c.From(x, from) := Via(c, x, from, metric, 0, 0, false)], costs, choice)
    requires Wins(after, Some(k0), choice)
    ensures Step(c.ground, w, e, w') && w'.nodes == w.nodes[x := w'.nodes[x]] && w'.sent == w.sent && w.seen <= w'.seen
    ensures Knows(w'.nodes[x], c, self, after, entry, Some(choice))
  {
    hide Step, Wins, Feasible, Reselecting;
    assert Learnt(w.nodes[x], c, x, from, metric).routes == map[k0 := r0, c.From(x, from) := Via(c, x, from, metric, 0, 0, false)];
    e, w' := Hears(c, w, x, from, metric, costs, choice);
  }

  lemma Tells(c: Scene, w: World, x: Node, self: RouterId, routes: map<RouteKey, Route>, sel: Option<RouteKey>, r: Route)
    returns (e: Event, w': World)
    requires c.Valid() && x in w.nodes && Knows(w.nodes[x], c, self, routes, None, sel) && (x, r) in w.seen
    requires !r.Local() && r.prefix == c.p && r.rid == c.ro && r.seqno == 1 && r.metric != RETRACTION
    ensures Step(c.ground, w, e, w') && w'.nodes == w.nodes[x := w'.nodes[x]]
    ensures w'.sent == w.sent + {Announce(x, c.p, c.ro, r.metric)} && w.seen <= w'.seen
    ensures Knows(w'.nodes[x], c, self, routes, Some(Distance(1, r.metric)), sel)
  {
    e, w' := Sends(c.ground, w, x, r);
    assert Encoded(w.nodes[x], r, NoAddr) == Some(Announce(x, c.p, c.ro, r.metric).upd);
    assert w'.nodes[x].routes == w.nodes[x].routes;
  }

  lemma LosesLink(c: Scene, w: World, x: Node, self: RouterId, routes: map<RouteKey, Route>, entry: Option<Distance>,
                  prev: RouteKey, costs: RouteKey -> Metric, choice: RouteKey, after: map<RouteKey, Route>)
    returns (e: Event, w': World)
    requires c.Valid() && x in w.nodes && Knows(w.nodes[x], c, self, routes, entry, Some(prev))
    requires choice in routes && after == Reselecting(routes, costs, choice) && Wins(after, Some(prev), choice)
    ensures Step(c.ground, w, e, w') && w'.nodes == w.nodes[x := w'.nodes[x]] && w'.sent == w.sent && w.seen <= w'.seen
    ensures Knows(w'.nodes[x], c, self, after, entry, Some(choice))
  {
    e, w' := Operates(c.ground, w, x, CostChanged, c.p, costs, choice, w.nodes[x]);
  }

  /** x prefers the origin at cost 1 to y, which told it 10. */
  lemma XKeepsOrigin(c: Scene, after: map<RouteKey, Route>)
    requires c.Valid() && c.Apart()
    requires after == map[c.xo := Via(c, c.x, c.o, 0, 1, 1, true), c.xy := Via(c, c.x, c.y, 10, 11, 11, false)]
    ensures after == Reselecting(map[c.xo := Via(c, c.x, c.o, 0, 1, 1, true), c.xy := Via(c, c.x, c.y, 10, 0, 0, false)],
                                 k => 1, c.xo)
    ensures Wins(after, Some(c.xo), c.xo)
  {
  }

  /** y prefers x, which told it 1, to the origin at cost 10. */
  lemma YMovesToX(c: Scene, costs: RouteKey -> Metric, after: map<RouteKey, Route>)
    requires c.Valid() && c.Apart() && forall k :: costs(k) == if k == c.yo then 10 else 1
    requires after == map[c.yo := Via(c, c.y, c.o, 0, 10, 10, false), c.yx := Via(c, c.y, c.x, 1, 2, 2, true)]
    ensures after == Reselecting(map[c.yo := Via(c, c.y, c.o, 0, 10, 10, true), c.yx := Via(c, c.y, c.x, 1, 0, 0, false)],
                                 costs, c.yx)
    ensures Wins(after, Some(c.yo), c.yx)
  {
  }

  /** With its link to the origin gone, x has only the stale route through y. */
  lemma XMovesToY(c: Scene, costs: RouteKey -> Metric, after: map<RouteKey, Route>)
    requires c.Valid() && c.Apart() && forall k :: costs(k) == if k == c.xo then RETRACTION else 1
    requires after == map[c.xo := Via(c, c.x, c.o, 0, RETRACTION, RETRACTION, false),
                          c.xy := Via(c, c.x, c.y, 10, 11, 11, true)]
    ensures after == Reselecting(map[c.xo := Via(c, c.x, c.o, 0, 1, 1, true), c.xy := Via(c, c.x, c.y, 10, 11, 11, false)],
                                 costs, c.xy)
    ensures Wins(after, Some(c.xo), c.xy)
  {
  }

  /** The nodes of the scene, with their counters in the half window. */
  predicate Cast(c: Scene, w: World) {
    && w.nodes.Keys == {c.o, c.x, c.y}
    && InWindow(0, w.nodes[c.o].seqno) && w.nodes[c.x].seqno == 0 == w.nodes[c.y].seqno
  }

  datatype Film = Film(worlds: seq<World>, events: seq<Event>)

  /** A run so far. */
  ghost predicate Shot(c: Scene, f: Film) {
    && |f.worlds| == |f.events| + 1 && f.worlds[0] == World0(c)
    && (forall i | 0 <= i < |f.worlds| :: Cast(c, f.worlds[i]))
    && Steps(c.ground, f.worlds, f.events)
  }

  function Now(f: Film): World
    requires f.worlds != []
  {
    f.worlds[|f.worlds| - 1]
  }

  function Add(f: Film, e: Event, w: World): Film { Film(f.worlds + [w], f.events + [e]) }

  lemma Append(c: Scene, f: Film, e: Event, w: World)
    requires Shot(c, f) && Step(c.ground, Now(f), e, w) && Cast(c, w)
    ensures Shot(c, Add(f, e, w)) && Now(Add(f, e, w)) == w
  {
    var f' := Add(f, e, w);
    forall i | 0 <= i < |f'.events|
      ensures StepAt(c.ground, f'.worlds, f'.events, i)
    {
      if i < |f.events| {
        assert StepAt(c.ground, f.worlds, f.events, i);
      }
    }
  }

  lemma StartIsShot(c: Scene)
    requires c.Valid()
    ensures Shot(c, Film([World0(c)], []))
    ensures Knows(World0(c).nodes[c.x], c, c.rx, map[], None, None) && Knows(World0(c).nodes[c.y], c, c.ry, map[], None, None)
  {
  }

  lemma ShootAdvertise(c: Scene) returns (f: Film)
    requires c.Valid()
    ensures Shot(c, f) && Now(f).nodes[c.o].cfg.self == c.ro && (c.o, Origin(c, true)) in Now(f).seen
    ensures Knows(Now(f).nodes[c.x], c, c.rx, map[], None, None) && Knows(Now(f).nodes[c.y], c, c.ry, map[], None, None)
  {
    StartIsShot(c);
    var w0, f0 := World0(c), Film([World0(c)], []);
    assert Cast(c, w0);
    var e, w := OriginAdvertises(c, w0);
    Append(c, f0, e, w);
    f := Add(f0, e, w);
  }

  lemma ShootOriginSends(c: Scene, f: Film) returns (f': Film)
    requires c.Valid() && Shot(c, f) && Now(f).nodes[c.o].cfg.self == c.ro && (c.o, Origin(c, true)) in Now(f).seen
    ensures Shot(c, f') && Announce(c.o, c.p, c.ro, 0) in Now(f').sent
    ensures Now(f').nodes[c.x] == Now(f).nodes[c.x] && Now(f').nodes[c.y] == Now(f).nodes[c.y]
  {
    var e, w := OriginSends(c, Now(f));
    Append(c, f, e, w);
    f' := Add(f, e, w);
  }

  /** x or y reacts; the rest of the world stays. */
  ghost predicate Follows(c: Scene, f: Film, x: Node, f': Film, out: set<Message>) {
    && x in {c.x, c.y} && Shot(c, f) && Shot(c, f')
    && (forall z | z in {c.x, c.y} && z != x :: Now(f').nodes[z] == Now(f).nodes[z])
    && Now(f').sent == Now(f).sent + out && Now(f).seen <= Now(f').seen
  }

  /** One more reaction. */
  lemma AppendReaction(c: Scene, f: Film, x: Node, e: Event, w: World, out: set<Message>)
    requires c.Valid() && Shot(c, f) && x in {c.x, c.y} && Step(c.ground, Now(f), e, w)
    requires w.nodes == Now(f).nodes[x := w.nodes[x]] && w.nodes[x].seqno == 0
    requires w.sent == Now(f).sent + out && Now(f).seen <= w.seen
    ensures Follows(c, f, x, Add(f, e, w), out) && Now(Add(f, e, w)) == w
  {
    hide Step;
    assert Cast(c, Now(f));
    Append(c, f, e, w);
  }

  lemma ShootHearsFirst(c: Scene, f: Film, x: Node, self: RouterId, from: Node, metric: Metric, cost: Metric, r: Route)
    returns (f': Film)
    requires c.Valid() && Shot(c, f) && x in {c.x, c.y} && Knows(Now(f).nodes[x], c, self, map[], None, None)
    requires c.Sees(x, from) && cost + metric < RETRACTION && Announce(from, c.p, c.ro, metric) in Now(f).sent
    requires r == Via(c, x, from, metric, cost + metric, cost + metric, true)
    ensures Follows(c, f, x, f', {}) && (x, r) in Now(f').seen
    ensures Knows(Now(f').nodes[x], c, self, map[c.From(x, from) := r], None, Some(c.From(x, from)))
  {
    hide Step, Steps, World0, Wins, Reselecting, Feasible, OnePrefix;
    var e, w := HearsFirst(c, Now(f), x, self, from, metric, cost, r);
    AppendReaction(c, f, x, e, w, {});
    f' := Add(f, e, w);
  }

  lemma ShootHearsSecond(c: Scene, f: Film, x: Node, self: RouterId, k0: RouteKey, r0: Route, entry: Option<Distance>,
                         from: Node, metric: Metric, costs: RouteKey -> Metric, choice: RouteKey, after: map<RouteKey, Route>)
    returns (f': Film)
    requires c.Valid() && Shot(c, f) && x in {c.x, c.y} && Knows(Now(f).nodes[x], c, self, map[k0 := r0], entry, Some(k0))
    requires c.Sees(x, from) && k0 != c.From(x, from) && metric != RETRACTION && Announce(from, c.p, c.ro, metric) in Now(f).sent
    requires entry.Some? ==> Feasible(entry.value, 1, metric)
    requires choice in {k0, c.From(x, from)}
    requires after == Reselecting(map[k0 := r0, c.From(x, from) := Via(c, x, from, metric, 0, 0, false)], costs, choice)
    requires Wins(after, Some(k0), choice)
    ensures Follows(c, f, x, f', {})
    ensures Knows(Now(f').nodes[x], c, self, after, entry, Some(choice))
  {
    hide Step, Steps, World0, Wins, Reselecting, Feasible, OnePrefix;
    var e, w := HearsSecond(c, Now(f), x, self, k0, r0, entry, from, metric, costs, choice, after);
    AppendReaction(c, f, x, e, w, {});
    f' := Add(f, e, w);
  }

  lemma ShootTells(c: Scene, f: Film, x: Node, self: RouterId, routes: map<RouteKey, Route>, sel: Option<RouteKey>, r: Route)
    returns (f': Film)
    requires c.Valid() && Shot(c, f) && x in {c.x, c.y}
    requires Knows(Now(f).nodes[x], c, self, routes, None, sel) && (x, r) in Now(f).seen
    requires !r.Local() && r.prefix == c.p && r.rid == c.ro && r.seqno == 1 && r.metric != RETRACTION
    ensures Follows(c, f, x, f', {Announce(x, c.p, c.ro, r.metric)})
    ensures Knows(Now(f').nodes[x], c, self, routes, Some(Distance(1, r.metric)), sel)
  {
    hide Step, Steps, World0, Wins, Reselecting, Feasible, OnePrefix;
    var e, w := Tells(c, Now(f), x, self, routes, sel, r);
    AppendReaction(c, f, x, e, w, {Announce(x, c.p, c.ro, r.metric)});
    f' := Add(f, e, w);
  }

  lemma ShootLosesLink(c: Scene, f: Film, x: Node, self: RouterId, routes: map<RouteKey, Route>, entry: Option<Distance>,
                       prev: RouteKey, costs: RouteKey -> Metric, choice: RouteKey, after: map<RouteKey, Route>)
    returns (f': Film)
    requires c.Valid() && Shot(c, f) && x in {c.x, c.y} && Knows(Now(f).nodes[x], c, self, routes, entry, Some(prev))
    requires choice in routes && after == Reselecting(routes, costs, choice) && Wins(after, Some(prev), choice)
    ensures Follows(c, f, x, f', {})
    ensures Knows(Now(f').nodes[x], c, self, after, entry, Some(choice))
  {
    hide Step, Steps, World0, Wins, Reselecting, Feasible, OnePrefix;
    var e, w := LosesLink(c, Now(f), x, self, routes, entry, prev, costs, choice, after);
    AppendReaction(c, f, x, e, w, {});
    f' := Add(f, e, w);
  }

  /** y learns the route from the origin and passes it on. */
  lemma SceneY(c: Scene, f0: Film) returns (f: Film)
    requires c.Valid() && Shot(c, f0) && Announce(c.o, c.p, c.ro, 0) in Now(f0).sent
    requires Knows(Now(f0).nodes[c.y], c, c.ry, map[], None, None)
    ensures Shot(c, f) && Now(f).nodes[c.x] == Now(f0).nodes[c.x]
    ensures Now(f).sent == Now(f0).sent + {Announce(c.y, c.p, c.ro, 10)}
    ensures Knows(Now(f).nodes[c.y], c, c.ry, map[c.yo := Via(c, c.y, c.o, 0, 10, 10, true)], Some(Distance(1, 10)), Some(c.yo))
  {
    var r := Via(c, c.y, c.o, 0, 10, 10, true);
    f := ShootHearsFirst(c, f0, c.y, c.ry, c.o, 0, 10, r);
    f := ShootTells(c, f, c.y, c.ry, map[c.yo := r], Some(c.yo), r);
  }

  /** x learns both routes, and announces the one through the origin. */
  lemma SceneX(c: Scene, f0: Film, both: map<RouteKey, Route>) returns (f: Film)
    requires c.Valid() && c.Apart() && Shot(c, f0) && {Announce(c.o, c.p, c.ro, 0), Announce(c.y, c.p, c.ro, 10)} <= Now(f0).sent
    requires Knows(Now(f0).nodes[c.x], c, c.rx, map[], None, None)
    requires both == map[c.xo := Via(c, c.x, c.o, 0, 1, 1, true), c.xy := Via(c, c.x, c.y, 10, 11, 11, false)]
    ensures Shot(c, f) && Now(f).nodes[c.y] == Now(f0).nodes[c.y] && Announce(c.x, c.p, c.ro, 1) in Now(f).sent
    ensures Knows(Now(f).nodes[c.x], c, c.rx, both, Some(Distance(1, 1)), Some(c.xo))
  {
    var ko, r := c.xo, Via(c, c.x, c.o, 0, 1, 1, true);
    f := ShootHearsFirst(c, f0, c.x, c.rx, c.o, 0, 1, r);
    XKeepsOrigin(c, both);
    f := ShootHearsSecond(c, f, c.x, c.rx, ko, r, None, c.y, 10, k => 1, ko, both);
    f := ShootTells(c, f, c.x, c.rx, both, Some(ko), r);
  }

  /** y moves to x. */
  lemma SceneMove(c: Scene, f0: Film, moved: map<RouteKey, Route>) returns (f: Film)
    requires c.Valid() && c.Apart() && Shot(c, f0) && Announce(c.x, c.p, c.ro, 1) in Now(f0).sent
    requires moved == map[c.yo := Via(c, c.y, c.o, 0, 10, 10, false), c.yx := Via(c, c.y, c.x, 1, 2, 2, true)]
    requires Knows(Now(f0).nodes[c.y], c, c.ry, map[c.yo := Via(c, c.y, c.o, 0, 10, 10, true)], Some(Distance(1, 10)), Some(c.yo))
    ensures Shot(c, f) && Now(f).nodes[c.x] == Now(f0).nodes[c.x]
    ensures Knows(Now(f).nodes[c.y], c, c.ry, moved, Some(Distance(1, 10)), Some(c.yx))
  {
    var ko := c.yo;
    var costs: RouteKey -> Metric := k => if k == ko then 10 else 1;
    YMovesToX(c, costs, moved);
    f := ShootHearsSecond(c, f0, c.y, c.ry, ko, Via(c, c.y, c.o, 0, 10, 10, true), Some(Distance(1, 10)), c.x, 1,
                          costs, c.yx, moved);
  }

  /** x loses its link to the origin and moves to y. */
  lemma SceneLoss(c: Scene, f0: Film, both: map<RouteKey, Route>, left: map<RouteKey, Route>) returns (f: Film)
    requires c.Valid() && c.Apart() && Shot(c, f0)
    requires both == map[c.xo := Via(c, c.x, c.o, 0, 1, 1, true), c.xy := Via(c, c.x, c.y, 10, 11, 11, false)]
    requires left == map[c.xo := Via(c, c.x, c.o, 0, RETRACTION, RETRACTION, false),
                         c.xy := Via(c, c.x, c.y, 10, 11, 11, true)]
    requires Knows(Now(f0).nodes[c.x], c, c.rx, both, Some(Distance(1, 1)), Some(c.xo))
    ensures Shot(c, f) && Now(f).nodes[c.y] == Now(f0).nodes[c.y]
    ensures Knows(Now(f).nodes[c.x], c, c.rx, left, Some(Distance(1, 1)), Some(c.xy))
  {
    var ko := c.xo;
    var costs: RouteKey -> Metric := k => if k == ko then RETRACTION else 1;
    XMovesToY(c, costs, left);
    f := ShootLosesLink(c, f0, c.x, c.rx, both, Some(Distance(1, 1)), ko, costs, c.xy, left);
  }

  lemma SceneLoop(c: Scene, f0: Film, both: map<RouteKey, Route>) returns (f: Film)
    requires c.Valid() && c.Apart() && Shot(c, f0) && Announce(c.x, c.p, c.ro, 1) in Now(f0).sent
    requires both == map[c.xo := Via(c, c.x, c.o, 0, 1, 1, true), c.xy := Via(c, c.x, c.y, 10, 11, 11, false)]
    requires Knows(Now(f0).nodes[c.x], c, c.rx, both, Some(Distance(1, 1)), Some(c.xo))
    requires Knows(Now(f0).nodes[c.y], c, c.ry, map[c.yo := Via(c, c.y, c.o, 0, 10, 10, true)], Some(Distance(1, 10)), Some(c.yo))
    ensures Shot(c, f)
    ensures var nodes, key := Now(f).nodes, SourceKey(c.p, c.ro);
            NextHop(c.ground, nodes, key, c.x, c.y) && NextHop(c.ground, nodes, key, c.y, c.x)
  {
    var moved := map[c.yo := Via(c, c.y, c.o, 0, 10, 10, false), c.yx := Via(c, c.y, c.x, 1, 2, 2, true)];
    var left := map[c.xo := Via(c, c.x, c.o, 0, RETRACTION, RETRACTION, false),
                    c.xy := Via(c, c.x, c.y, 10, 11, 11, true)];
    f := SceneMove(c, f0, moved);
    f := SceneLoss(c, f, both, left);
    KnowsNextHop(c, Now(f), c.x, c.rx, left, c.xy, c.y);
    KnowsNextHop(c, Now(f), c.y, c.ry, moved, c.yx, c.x);
  }

  lemma KnowsNextHop(c: Scene, w: World, x: Node, self: RouterId, routes: map<RouteKey, Route>, sel: RouteKey, y: Node)
    requires x in w.nodes && sel in routes && !routes[sel].Local() && routes[sel].rid == c.ro
    requires c.peer(x, routes[sel].neighbour.value) == y
    requires exists entry :: Knows(w.nodes[x], c, self, routes, entry, Some(sel))
    ensures NextHop(c.ground, w.nodes, SourceKey(c.p, c.ro), x, y)
  {
  }

  lemma Opening(c: Scene) returns (f: Film)
    requires c.Valid()
    ensures Shot(c, f) && {Announce(c.o, c.p, c.ro, 0), Announce(c.y, c.p, c.ro, 10)} <= Now(f).sent
    ensures Knows(Now(f).nodes[c.x], c, c.rx, map[], None, None)
    ensures Knows(Now(f).nodes[c.y], c, c.ry, map[c.yo := Via(c, c.y, c.o, 0, 10, 10, true)], Some(Distance(1, 10)), Some(c.yo))
  {
    f := ShootAdvertise(c);
    f := ShootOriginSends(c, f);
    f := SceneY(c, f);
  }

  /** For any three nodes, whatever their addresses, there is a run at the end of which x forwards to y and y to x. */
  lemma StaleFlagLoops(c: Scene) returns (worlds: seq<World>, events: seq<Event>)
    requires c.Valid() && c.Apart()
    ensures Run(c.ground, worlds, events)
    ensures Chain(c.ground, worlds[|events|].nodes, SourceKey(c.p, c.ro), [c.x, c.y, c.x])
  {
    var both := map[c.xo := Via(c, c.x, c.o, 0, 1, 1, true), c.xy := Via(c, c.x, c.y, 10, 11, 11, false)];
    var f := Opening(c);
    f := SceneX(c, f, both);
    f := SceneLoop(c, f, both);
    ShotIsRun(c, f);
    worlds, events := f.worlds, f.events;
    ThereAndBack(c, Now(f).nodes, c.x, c.y);
  }

  lemma ThereAndBack(c: Scene, nodes: Nodes, x: Node, y: Node)
    requires NextHop(c.ground, nodes, SourceKey(c.p, c.ro), x, y) && NextHop(c.ground, nodes, SourceKey(c.p, c.ro), y, x)
    ensures Chain(c.ground, nodes, SourceKey(c.p, c.ro), [x, y, x])
  {
  }

  lemma ShotIsRun(c: Scene, f: Film)
    requires c.Valid() && Shot(c, f)
    ensures Run(c.ground, f.worlds, f.events)
  {
    hide StepAt, Cast, Windowed, Start, World0;
    SceneStarts(c);
    forall i | 0 <= i < |f.worlds|
      ensures Windowed(c.ground, f.worlds[i].nodes)
    {
      assert Cast(c, f.worlds[i]);
      CastIsWindowed(c, f.worlds[i]);
    }
  }

  lemma SceneStarts(c: Scene)
    requires c.Valid()
    ensures Start(World0(c))
  {
  }

  lemma CastIsWindowed(c: Scene, w: World)
    requires Cast(c, w)
    ensures Windowed(c.ground, w.nodes)
  {
  }
}
