/** What an accepted update leaves, and how long it stands: a route lives for one hold time after the last update accepted
    for it, is announced as retracted for one more, and is then forgotten. Stated over the operations of a speaker, in terms
    of the fields of routes. */
module Lifetime {
  import opened Net
  import opened BabelTypes
  import opened SpeakerState
  import opened SpeakerProperties
  import RouteChoice
  import Selection

  // ---- What is accepted, and what it leaves ----

  /** Retractions pass, first updates of a source do, and otherwise newer ones or as new ones of smaller metric. */
  predicate Passes(s: State, key: SourceKey, upd: Update) {
    upd.metric < 65535 && key in s.sources ==>
      var d := s.sources[key].distance;
      SeqnoLess(d.seqno, upd.seqno) || (d.seqno == upd.seqno && upd.metric < d.metric)
  }

  /** An update with a router-id is accepted, except one that would make a new route without passing or as a retraction, and
      one that does not pass and repeats the source of the selected route. */
  predicate Accepts(s: State, n: Neighbour, upd: Update) {
    var p := Normalize(upd.prefix);
    var k, pass := RouteKey(p, n.address), Passes(s, SourceKey(p, upd.rid), upd);
    && (exists i :: 0 <= i < |upd.rid| && upd.rid[i] != 0)
    && if k in s.routes then pass || !s.routes[k].selected || s.routes[k].rid != upd.rid
       else pass && upd.metric < 65535
  }

  /** What operations that do not concern a route may still change of it. */
  predicate Kept(a: Route, b: Route) {
    b == a.(metric := b.metric, smoothed := b.smoothed, selected := b.selected, seqno := b.seqno)
  }

  /** The fields of the route in which an update was stored. */
  predicate Stored(r: Route, before: Option<Route>, p: Prefix, n: Neighbour, upd: Update, pass: bool, path: Path, until: nat) {
    && r.prefix == (if before.Some? then before.value.prefix else p)
    && r.neighbour == (if before.Some? then before.value.neighbour else Some(n))
    && r.rid == upd.rid && r.seqno == upd.seqno && r.advertised == upd.metric && r.feasible == pass && r.path == path
    && r.nextHop == (if !upd.nextHop.NoAddr? then upd.nextHop else if before.Some? then before.value.nextHop else n.address)
    && !r.expired && r.expiry == Some(until)
  }

  function RouteAt(s: State, k: RouteKey): Option<Route> { if k in s.routes then Some(s.routes[k]) else None }

  lemma PassesIsFeasible(s: State, key: SourceKey, upd: Update)
    ensures Passes(s, key, upd) <==> UpdateFeasible(s, key, upd)
  {
  }

  lemma NamedSource(rid: RouterId)
    requires |rid| == 8
    ensures rid != UNSPECIFIED_ID <==> exists i :: 0 <= i < |rid| && rid[i] != 0
  {
    if rid != UNSPECIFIED_ID {
      assert !(forall i | 0 <= i < 8 :: rid[i] == UNSPECIFIED_ID[i]);
    }
  }

  lemma AcceptsIsAcquire(s: State, n: Neighbour, upd: Update, path: Path, now: nat)
    requires |upd.rid| == 8
    ensures Accepts(s, n, upd) <==> Acquire(s, n, upd, path, now).Some?
  {
    hide Normalize, Passes, UpdateFeasible;
    NamedSource(upd.rid);
    PassesIsFeasible(s, SourceKey(Normalize(upd.prefix), upd.rid), upd);
  }

  /** In t the update is stored, and nothing else is changed. */
  predicate StoredIn(s: State, n: Neighbour, upd: Update, path: Path, now: nat, t: State) {
    var p := Normalize(upd.prefix);
    var k := RouteKey(p, n.address);
    && k in t.routes && t == s.(routes := s.routes[k := t.routes[k]])
    && Stored(t.routes[k], RouteAt(s, k), p, n, upd, Passes(s, SourceKey(p, upd.rid), upd), path, now + s.cfg.routeExpiry)
  }

  /** The table right after the update, before the selection. */
  lemma AcquireStores(s: State, n: Neighbour, upd: Update, path: Path, now: nat, t: State)
    requires Acquire(s, n, upd, path, now) == Some(t)
    ensures StoredIn(s, n, upd, path, now, t)
  {
    hide Normalize, Passes, UpdateFeasible;
    PassesIsFeasible(s, SourceKey(Normalize(upd.prefix), upd.rid), upd);
  }

  lemma SelectionKeepsLearnt(t: State, costs: RouteKey -> Metric, s': State, rep: Report, k: RouteKey)
    requires SelectionStep(t, costs, s', rep) && k in t.routes && !t.routes[k].Local()
    ensures k in s'.routes && Kept(t.routes[k], s'.routes[k]) && s'.routes[k].seqno == t.routes[k].seqno
    ensures s'.cfg == t.cfg && (t.routes[k].expired ==> s'.routes[k].metric == 65535)
    ensures !t.routes[k].expired ==> s'.routes[k].metric == LinkMetric(costs(k), t.routes[k].advertised)
  {
    hide Printed, Reports, AllChosen, Smooth, LinkMetric;
    assert Reselected(t.routes, costs, s'.selected, s'.routes);
  }

  /** A received update is stored field by field with a new hold time, or ignored; no other route is touched. */
  lemma UpdateIsStored(s: State, n: Neighbour, upd: Update, path: Path, now: nat, costs: RouteKey -> Metric, s': State, rep: Report)
    requires Consistent(s) && n.address != NoAddr && |upd.rid| == 8
    requires OpStep(s, Receive(n, upd, path, now), costs, s', rep)
    ensures !Accepts(s, n, upd) ==> s' == s && rep == Report([], [], [])
    ensures Accepts(s, n, upd) ==>
              var p := Normalize(upd.prefix);
              var k := RouteKey(p, n.address);
              && s'.routes.Keys == s.routes.Keys + {k} && s'.sources == s.sources && s'.cfg == s.cfg && s'.seqno == s.seqno
              && Stored(s'.routes[k], RouteAt(s, k), p, n, upd, Passes(s, SourceKey(p, upd.rid), upd), path,
                        now + s.cfg.routeExpiry)
              && RouteChoice.CappedSum(costs(k), upd.metric, s'.routes[k].metric)
              && forall j | j in s.routes && j != k && !s.routes[j].Local() :: Kept(s.routes[j], s'.routes[j])
  {
    hide Normalize, Acquire, Accepts, Stored, SelectionStep, LinkMetric, Passes;
    AcceptsIsAcquire(s, n, upd, path, now);
    var t := Acquire(s, n, upd, path, now);
    if t.Some? {
      AcquireStores(s, n, upd, path, now, t.value);
      StoredSurvives(s, n, upd, path, now, costs, t.value, s', rep);
      OthersSurvive(s, RouteKey(Normalize(upd.prefix), n.address), costs, t.value, s', rep);
      RouteChoice.LinkIsCapped(costs(RouteKey(Normalize(upd.prefix), n.address)), upd.metric);
    }
  }

  lemma StoredSurvives(s: State, n: Neighbour, upd: Update, path: Path, now: nat, costs: RouteKey -> Metric, t: State, s': State,
                       rep: Report)
    requires Consistent(s) && n.address != NoAddr && SelectionStep(t, costs, s', rep)
    requires var p := Normalize(upd.prefix);
             var k := RouteKey(p, n.address);
             && k in t.routes && t == s.(routes := s.routes[k := t.routes[k]])
             && Stored(t.routes[k], RouteAt(s, k), p, n, upd, Passes(s, SourceKey(p, upd.rid), upd), path, now + s.cfg.routeExpiry)
    ensures var p := Normalize(upd.prefix);
            var k := RouteKey(p, n.address);
            && k in s'.routes && s'.routes[k].metric == LinkMetric(costs(k), upd.metric)
            && Stored(s'.routes[k], RouteAt(s, k), p, n, upd, Passes(s, SourceKey(p, upd.rid), upd), path, now + s.cfg.routeExpiry)
  {
    hide Normalize, Passes, SelectionStep, LinkMetric;
    var k := RouteKey(Normalize(upd.prefix), n.address);
    assert k in s.routes ==> s.routes[k].Key() == k;
    SelectionKeepsLearnt(t, costs, s', rep, k);
  }

  lemma OthersSurvive(s: State, k: RouteKey, costs: RouteKey -> Metric, t: State, s': State, rep: Report)
    requires k in t.routes && t == s.(routes := s.routes[k := t.routes[k]]) && SelectionStep(t, costs, s', rep)
    ensures s'.routes.Keys == s.routes.Keys + {k} && s'.sources == s.sources && s'.cfg == s.cfg && s'.seqno == s.seqno
    ensures forall j | j in s.routes && j != k && !s.routes[j].Local() :: Kept(s.routes[j], s'.routes[j])
  {
    hide Printed, Reports, AllChosen, Smooth, LinkMetric, Kept;
    assert Reselected(t.routes, costs, s'.selected, s'.routes);
    forall j | j in s.routes && j != k && !s.routes[j].Local()
      ensures Kept(s.routes[j], s'.routes[j])
    {
      SelectionKeepsLearnt(t, costs, s', rep, j);
    }
  }

  // ---- Operations in between ----

  /** The operation is not about the route: no accepted update for it, and its neighbour stays. */
  predicate Spares(s: State, op: Op, k: RouteKey) {
    match op
    case Receive(n, upd, path, now) =>
      n.address != NoAddr && |upd.rid| == 8 && (RouteKey(Normalize(upd.prefix), n.address) != k || !Accepts(s, n, upd))
    case NeighbourRemoved(gone) => k in s.routes ==> s.routes[k].neighbour != Some(gone)
    case _ => true
  }

  /** No hold time ends with this operation. */
  predicate Before(op: Op, until: nat) { op.Sweep? ==> op.now < until }

  lemma TableSpares(s: State, op: Op, k: RouteKey, until: nat)
    requires k.neighbour != NoAddr && k in s.routes && !s.routes[k].Local() && s.routes[k].expiry == Some(until)
    requires Spares(s, op, k) && Before(op, until)
    ensures var t := Table(s, op).state;
            && k in t.routes && t.routes[k] == s.routes[k].(seqno := t.routes[k].seqno) && t.cfg.routeExpiry == s.cfg.routeExpiry
  {
    hide Normalize, Masked, Accepts;
    match op
    case Receive(n, upd, path, now) => ReceiveSpares(s, n, upd, path, now, k);
    case _ =>
  }

  lemma ReceiveSpares(s: State, n: Neighbour, upd: Update, path: Path, now: nat, k: RouteKey)
    requires k in s.routes && |upd.rid| == 8 && (RouteKey(Normalize(upd.prefix), n.address) != k || !Accepts(s, n, upd))
    ensures var t := Acquire(s, n, upd, path, now);
            t.Some? ==> k in t.value.routes && t.value.routes[k] == s.routes[k] && t.value.cfg == s.cfg
  {
    hide Normalize, Acquire, Accepts;
    AcceptsIsAcquire(s, n, upd, path, now);
    var t := Acquire(s, n, upd, path, now);
    if t.Some? {
      AcquireStores(s, n, upd, path, now, t.value);
    }
  }

  /** A route, as it was stored, between operations. */
  predicate Standing(s: State, k: RouteKey, r: Route, hold: nat) {
    k in s.routes && Kept(r, s.routes[k]) && s.cfg.routeExpiry == hold && (r.expired ==> s.routes[k].metric == 65535)
  }

  lemma OperationSpares(s: State, op: Op, costs: RouteKey -> Metric, s': State, rep: Report, k: RouteKey, r: Route, hold: nat)
    requires OpStep(s, op, costs, s', rep) && k.neighbour != NoAddr && Standing(s, k, r, hold)
    requires !r.Local() && r.expiry.Some? && Spares(s, op, k) && Before(op, r.expiry.value)
    ensures Standing(s', k, r, hold)
  {
    hide Spares, SelectionStep, Table;
    TableSpares(s, op, k, r.expiry.value);
    var t := Table(s, op);
    if t.Selecting? {
      SelectionKeepsLearnt(t.state, costs, s', rep, k);
    } else {
      QuietKeepsMetric(s, op, k);
    }
  }

  lemma QuietKeepsMetric(s: State, op: Op, k: RouteKey)
    requires k in s.routes && Table(s, op).Quiet? && k in Table(s, op).state.routes
    ensures Table(s, op).state.routes[k].metric == s.routes[k].metric
  {
    hide Normalize, Masked, Acquire;
  }

  /** None of these operations is about the route, and its hold time does not end with them. */
  ghost predicate Undisputed(states: seq<State>, ops: seq<Op>, from: nat, to: nat, k: RouteKey, until: nat)
    requires |states| == |ops| + 1 && to <= |ops|
  {
    forall j | from <= j < to :: Spares(states[j], ops[j], k) && Before(ops[j], until)
  }

  lemma {:induction false} RouteStands(states: seq<State>, ops: seq<Op>, costs: seq<RouteKey -> Metric>, reps: seq<Report>,
                                       from: nat, to: nat, k: RouteKey, r: Route, hold: nat)
    requires SpeakerRun(states, ops, costs, reps) && from <= to <= |ops| && k.neighbour != NoAddr
    requires !r.Local() && r.expiry.Some? && Standing(states[from], k, r, hold)
    requires Undisputed(states, ops, from, to, k, r.expiry.value)
    ensures Standing(states[to], k, r, hold)
  {
    hide OpStep, Standing, Spares, Before;
    if from < to {
      var n := to - 1;
      RouteStands(states, ops, costs, reps, from, n, k, r, hold);
      assert OpStep(states[n], ops[n], costs[n], states[n + 1], reps[n]);
      assert Spares(states[n], ops[n], k) && Before(ops[n], r.expiry.value);
      OperationSpares(states[n], ops[n], costs[n], states[n + 1], reps[n], k, r, hold);
    }
  }

  // ---- The life of a route ----

  /** An accepted update is still what the route says, unexpired, at any later moment before a sweep one hold time later, unless
      an operation was about the route. */
  lemma RouteLasts(states: seq<State>, ops: seq<Op>, costs: seq<RouteKey -> Metric>, reps: seq<Report>, i: nat, m: nat,
                   n: Neighbour, upd: Update, path: Path, t: nat)
    requires SpeakerRun(states, ops, costs, reps) && Consistent(states[0]) && i < m <= |ops|
    requires ops[i] == Receive(n, upd, path, t) && n.address != NoAddr && |upd.rid| == 8 && Accepts(states[i], n, upd)
    requires Undisputed(states, ops, i + 1, m, RouteKey(Normalize(upd.prefix), n.address), t + states[i].cfg.routeExpiry)
    ensures var p, hold := Normalize(upd.prefix), states[i].cfg.routeExpiry;
            var k := RouteKey(p, n.address);
            var before := RouteAt(states[i], k);
            && k in states[m].routes && states[m].cfg.routeExpiry == hold
            && Stored(states[m].routes[k].(seqno := upd.seqno), before, p, n, upd,
                      Passes(states[i], SourceKey(p, upd.rid), upd), path, t + hold)
  {
    hide OpStep, Accepts, Passes, Normalize, Consistent, Spares, Before, LinkMetric;
    var k, hold := RouteKey(Normalize(upd.prefix), n.address), states[i].cfg.routeExpiry;
    MirrorFollowsRun(states, ops, costs, reps);
    assert OpStep(states[i], ops[i], costs[i], states[i + 1], reps[i]);
    UpdateIsStored(states[i], n, upd, path, t, costs[i], states[i + 1], reps[i]);
    var r := states[i + 1].routes[k];
    LearntRoute(states[i], k);
    RouteStands(states, ops, costs, reps, i + 1, m, k, r, hold);
  }

  lemma LearntRoute(s: State, k: RouteKey)
    requires Consistent(s) && k.neighbour != NoAddr
    ensures k in s.routes ==> !s.routes[k].Local()
  {
    assert k in s.routes ==> s.routes[k].Key() == k;
  }

  /** A sweep at or after the expiry: a route that still has a finite metric is retracted for one more hold time, and one that
      has not is dropped. */
  lemma SweepEnds(s: State, now: nat, costs: RouteKey -> Metric, s': State, rep: Report, k: RouteKey, r: Route, hold: nat)
    requires OpStep(s, Sweep(now), costs, s', rep) && Standing(s, k, r, hold) && !r.Local() && r.expiry.Some?
    requires now >= r.expiry.value
    ensures s.routes[k].metric < 65535 ==>
              Standing(s', k, s.routes[k].(metric := 65535, expired := true, expiry := Some(now + hold)), hold)
              && s'.routes[k].metric == 65535 && !s'.routes[k].Local()
    ensures s.routes[k].metric == 65535 ==> k !in s'.routes
  {
    hide SelectionStep;
    var t := SweepTable(s, now);
    if s.routes[k].metric < 65535 {
      assert k in t.routes && t.routes[k] == s.routes[k].(metric := 65535, expired := true, expiry := Some(now + hold));
      SelectionKeepsLearnt(t, costs, s', rep, k);
    } else {
      assert k !in t.routes;
      SelectionKeepsKeys(t, costs, s', rep);
    }
  }

  lemma SelectionKeepsKeys(t: State, costs: RouteKey -> Metric, s': State, rep: Report)
    requires SelectionStep(t, costs, s', rep)
    ensures s'.routes.Keys == t.routes.Keys
  {
  }

  /** The first sweep one hold time after the update retracts the route and marks it expired; it stays so until the first sweep
      one hold time after that, which drops it. A route that is retracted already is dropped by the first of them. */
  lemma RouteRunsOut(states: seq<State>, ops: seq<Op>, costs: seq<RouteKey -> Metric>, reps: seq<Report>, i: nat, m: nat, q: nat,
                     n: Neighbour, upd: Update, path: Path, t: nat, u: nat, v: nat)
    requires SpeakerRun(states, ops, costs, reps) && Consistent(states[0]) && i < m < q < |ops|
    requires ops[i] == Receive(n, upd, path, t) && n.address != NoAddr && |upd.rid| == 8 && Accepts(states[i], n, upd)
    requires Undisputed(states, ops, i + 1, m, RouteKey(Normalize(upd.prefix), n.address), t + states[i].cfg.routeExpiry)
    requires ops[m] == Sweep(u) && u >= t + states[i].cfg.routeExpiry
    requires Undisputed(states, ops, m + 1, q, RouteKey(Normalize(upd.prefix), n.address), u + states[i].cfg.routeExpiry)
    requires ops[q] == Sweep(v) && v >= u + states[i].cfg.routeExpiry
    ensures var k := RouteKey(Normalize(upd.prefix), n.address);
            && k in states[m].routes
            && (states[m].routes[k].metric == 65535 ==> k !in states[m + 1].routes)
            && (states[m].routes[k].metric < 65535 ==>
                  Retracted(states[m + 1], k) && Retracted(states[q], k) && k !in states[q + 1].routes)
  {
    hide OpStep, Accepts, Passes, Normalize, Consistent, Spares, Before, Kept;
    var k, hold := RouteKey(Normalize(upd.prefix), n.address), states[i].cfg.routeExpiry;
    RouteLasts(states, ops, costs, reps, i, m, n, upd, path, t);
    MirrorFollowsRun(states, ops, costs, reps);
    LearntRoute(states[i], k);
    var r := states[m].routes[k];
    assert Kept(r, r) by { KeptItself(r); }
    assert OpStep(states[m], ops[m], costs[m], states[m + 1], reps[m]);
    SweepEnds(states[m], u, costs[m], states[m + 1], reps[m], k, r, hold);
    if r.metric < 65535 {
      var gone := r.(metric := 65535, expired := true, expiry := Some(u + hold));
      RouteStands(states, ops, costs, reps, m + 1, q, k, gone, hold);
      assert OpStep(states[q], ops[q], costs[q], states[q + 1], reps[q]);
      SweepEnds(states[q], v, costs[q], states[q + 1], reps[q], k, gone, hold);
      KeptFields(gone, states[m + 1].routes[k]);
      KeptFields(gone, states[q].routes[k]);
    }
  }

  /** The route is marked expired, has the infinite metric and cannot be chosen. */
  predicate Retracted(s: State, k: RouteKey) {
    k in s.routes && s.routes[k].expired && s.routes[k].metric == 65535 && !Candidate(s.routes[k])
  }

  lemma KeptItself(r: Route)
    ensures Kept(r, r)
  {
  }

  lemma KeptFields(a: Route, b: Route)
    requires Kept(a, b)
    ensures b.expired == a.expired && b.expiry == a.expiry && b.neighbour == a.neighbour && b.advertised == a.advertised
  {
  }
}
