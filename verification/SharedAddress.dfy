/** Route keys name a neighbour by its address alone. Where two neighbours have the same address on different interfaces,
    an update of the one changes the route through the other. */
module SharedAddress {
  import opened Net
  import opened BabelTypes
  import opened SpeakerState
  import opened Selection
  import opened Network
  import opened Loop

  /** The route of x through y, once the origin has been heard under the address of y. */
  function Overheard(c: Scene): Route { Via(c, c.x, c.y, 0, 11, 11, true) }

  lemma OverhearComputes(c: Scene, s: State, t: State)
    requires c.Valid() && c.link(c.x, c.o).address == c.link(c.x, c.y).address
    requires Knows(s, c, c.rx, map[c.xy := Via(c, c.x, c.y, 10, 11, 11, true)], None, Some(c.xy))
    requires t == s.(routes := map[c.xy := Overheard(c)])
    ensures Acquire(s, c.link(c.x, c.o), Announce(c.o, c.p, c.ro, 0).upd, NO_PATH, 0) == Some(t) && OnePrefix(t, c.p)
  {
    HomeIsPlain();
    NativeIsNormal(c.p);
    assert s.routes[c.xy := Overheard(c)] == t.routes;
  }

  lemma OverheardWins(c: Scene, costs: RouteKey -> Metric)
    requires forall k :: costs(k) == 1
    ensures var after := Reselecting(map[c.xy := Overheard(c)], costs, c.xy);
            after.Keys == {c.xy} && Wins(after, Some(c.xy), c.xy) && after[c.xy].neighbour == Some(c.link(c.x, c.y))
            && SourceOf(after[c.xy]) == SourceKey(c.p, c.ro) && after[c.xy].seqno == 1 && after[c.xy].advertised == 0
  {
  }

  /** The advertisement passes the feasibility condition against the entry of the node it counts as learnt from. */
  predicate BeatsSender(g: Ground, nodes: Nodes, x: Node, r: Route) {
    && !r.Local() && r.advertised != RETRACTION && Sender(g, x, r) in nodes
    && var sources := nodes[Sender(g, x, r)].sources;
       SourceOf(r) in sources && Feasible(sources[SourceOf(r)].distance, r.seqno, r.advertised)
  }

  lemma OverheardBeatsSender(c: Scene, w: World, r: Route, routes: map<RouteKey, Route>, sel: RouteKey)
    requires c.Valid() && c.y in w.nodes && Knows(w.nodes[c.y], c, c.ry, routes, Some(Distance(1, 10)), Some(sel))
    requires r.neighbour == Some(c.link(c.x, c.y)) && SourceOf(r) == SourceKey(c.p, c.ro) && r.seqno == 1 && r.advertised == 0
    ensures BeatsSender(c.ground, w.nodes, c.x, r)
  {
  }

  /** x hears y, and then the origin under the same address. */
  lemma HearsBoth(c: Scene, f0: Film) returns (f: Film)
    requires c.Valid() && c.link(c.x, c.o).address == c.link(c.x, c.y).address && Shot(c, f0)
    requires {Announce(c.o, c.p, c.ro, 0), Announce(c.y, c.p, c.ro, 10)} <= Now(f0).sent
    requires Knows(Now(f0).nodes[c.x], c, c.rx, map[], None, None)
    ensures Shot(c, f) && Now(f).nodes[c.y] == Now(f0).nodes[c.y] && c.xy in Now(f).nodes[c.x].routes
    ensures var r := Now(f).nodes[c.x].routes[c.xy];
            && r.neighbour == Some(c.link(c.x, c.y)) && SourceOf(r) == SourceKey(c.p, c.ro) && r.seqno == 1 && r.advertised == 0
  {
    hide Step, Steps, World0, Wins, Reselecting, OnePrefix, Feasible;
    var costs: RouteKey -> Metric := k => 1;
    var r := Via(c, c.x, c.y, 10, 11, 11, true);
    f := ShootHearsFirst(c, f0, c.x, c.rx, c.y, 10, 1, r);
    var s := Now(f).nodes[c.x];
    var t := s.(routes := map[c.xy := Overheard(c)]);
    OverhearComputes(c, s, t);
    OverheardWins(c, costs);
    var e, w := Receives(c.ground, Now(f), c.x, Announce(c.o, c.p, c.ro, 0), c.link(c.x, c.o), c.p, costs, c.xy, t);
    AppendReaction(c, f, c.x, e, w, {});
    f := Add(f, e, w);
  }

  /** For any three nodes of which two have the same address at the third there is a run in which a route through the one
      carries an advertisement of the other that beats the one's own source entry. */
  lemma SharedAddressBeatsSender(c: Scene) returns (worlds: seq<World>, events: seq<Event>)
    requires c.Valid() && c.link(c.x, c.o).address == c.link(c.x, c.y).address
    ensures !OneNode(c.ground) && Run(c.ground, worlds, events)
    ensures var nodes := worlds[|events|].nodes;
            c.x in nodes && c.xy in nodes[c.x].routes && BeatsSender(c.ground, nodes, c.x, nodes[c.x].routes[c.xy])
  {
    hide Run, Knows, Steps, World0;
    var f := Opening(c);
    f := HearsBoth(c, f);
    assert c.x in Now(f).nodes && c.y in Now(f).nodes;
    OverheardBeatsSender(c, Now(f), Now(f).nodes[c.x].routes[c.xy], map[c.yo := Via(c, c.y, c.o, 0, 10, 10, true)], c.yo);
    ShotIsRun(c, f);
    worlds, events := f.worlds, f.events;
    assert c.peer(c.x, c.link(c.x, c.o)) != c.peer(c.x, c.link(c.x, c.y));
  }
}
