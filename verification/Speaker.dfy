/** One Babel speaker, updated in place. */
module Speaker {
  import opened Lists
  import opened Net
  import opened BabelTypes
  import opened SpeakerState
  import opened Selection
  import Wire
  import opened Announcing
  import ChangeReport
  import Lifetime

  type Tlv = Wire.Tlv
  type Quality = Wire.Quality

  /** Iterating over a Go map: every item once, in an order of the runtime's choosing. */
  method InSomeOrder<T(==, !new)>(items: set<T>) returns (order: seq<T>)
    ensures Enumerates(order, items)
  {
    order := [];
    var rest := items;
    while rest != {}
      invariant rest <= items
      invariant Enumerates(order, items - rest)
      decreases rest
    {
      var k :| k in rest;
      order := order + [k];
      rest := rest - {k};
    }
  }

  class Speaker {
    const self: RouterId
    const routeExpiry: nat
    const sourceGC: nat
    var maxPaths: int
    var slack: nat
    var penalty: real
    var routes: map<RouteKey, Route>
    var sources: map<SourceKey, Source>
    var selected: map<Prefix, Option<RouteKey>>
    var lastFingerprint: map<Prefix, Print>
    var localSeqNo: SeqNo

    function Snapshot(): State
      reads this
    {
      State(Config(self, maxPaths, slack, penalty, routeExpiry, sourceGC), routes, sources, selected, lastFingerprint, localSeqNo)
    }

    constructor (self: RouterId, maxPaths: int, slack: nat, penalty: real, routeExpiry: nat, sourceGC: nat)
      ensures Snapshot() == State(Config(self, maxPaths, slack, penalty, routeExpiry, sourceGC), map[], map[], map[], map[], 0)
      ensures Consistent(Snapshot())
    {
      this.self, this.maxPaths, this.slack, this.penalty := self, maxPaths, slack, penalty;
      this.routeExpiry, this.sourceGC := routeExpiry, sourceGC;
      routes, sources, selected, lastFingerprint, localSeqNo := map[], map[], map[], map[], 0;
    }

    /** The first loop of a selection: recompute metrics and gather the candidates. */
    method RefreshRoutes(order: seq<RouteKey>, costs: RouteKey -> Metric) returns (candidates: seq<RouteKey>)
      requires forall k | k in order :: k in routes
      requires forall i, j | 0 <= i < j < |order| :: order[i] != order[j]
      modifies this`routes
      ensures routes.Keys == old(routes).Keys
      ensures forall k | k in routes ::
                routes[k] == if k in order then Refresh(old(routes)[k], costs(k)) else old(routes)[k]
      ensures forall k :: k in candidates <==> k in order && Candidate(routes[k])
    {
      hide Refresh, Candidate;
      candidates := [];
      for i := 0 to |order|
        invariant routes.Keys == old(routes).Keys
        invariant forall k | k in routes ::
                    routes[k] == if k in order[..i] then Refresh(old(routes)[k], costs(k)) else old(routes)[k]
        invariant forall k :: k in candidates <==> k in order[..i] && Candidate(routes[k])
      {
        var k := order[i];
        assert k !in order[..i];
        routes := routes[k := Refresh(routes[k], costs(k))];
        if Candidate(routes[k]) {
          candidates := candidates + [k];
        }
        assert order[..i + 1] == order[..i] + [k];
      }
      assert order[..|order|] == order;
    }

    /** The best candidate, then the hysteresis against the previous choice. */
    method Choose(candidates: seq<RouteKey>, prev: Option<RouteKey>) returns (sel: Option<RouteKey>)
      requires forall k | k in candidates :: k in routes
      ensures candidates == [] ==> sel == None
      ensures candidates != [] ==>
                var cands := set k | k in candidates;
                exists best :: Minimal(routes, cands, best) && sel == Some(Hysteresis(routes, cands, prev, best))
    {
      if candidates == [] {
        return None;
      }
      var best := candidates[0];
      for i := 1 to |candidates|
        invariant best in candidates
        invariant forall j | 0 <= j < i :: !RouteLess(routes[candidates[j]], routes[best])
      {
        if RouteLess(routes[candidates[i]], routes[best]) {
          best := candidates[i];
        }
      }
      ghost var cands := set k | k in candidates;
      assert Minimal(routes, cands, best);
      if prev.Some? && prev.value in candidates && prev.value != best {
        if routes[best].metric < routes[prev.value].metric && routes[best].smoothed < routes[prev.value].smoothed {
          sel := Some(best);
        } else {
          sel := prev;
        }
      } else {
        sel := Some(best);
      }
    }

    method MarkSelected(order: seq<RouteKey>, sel: Option<RouteKey>)
      requires forall k | k in order :: k in routes
      requires forall i, j | 0 <= i < j < |order| :: order[i] != order[j]
      modifies this`routes
      ensures routes.Keys == old(routes).Keys
      ensures forall k | k in routes ::
                routes[k] == if k in order then old(routes)[k].(selected := sel == Some(k)) else old(routes)[k]
    {
      for i := 0 to |order|
        invariant routes.Keys == old(routes).Keys
        invariant forall k | k in routes ::
                    routes[k] == if k in order[..i] then old(routes)[k].(selected := sel == Some(k)) else old(routes)[k]
      {
        var k := order[i];
        assert k !in order[..i];
        routes := routes[k := routes[k].(selected := sel == Some(k))];
        assert order[..i + 1] == order[..i] + [k];
      }
      assert order[..|order|] == order;
    }

    /** The first loop of the export: the best metric among the usable routes. */
    method LowestMetric(table: map<RouteKey, Route>, order: seq<RouteKey>, start: Metric) returns (m: Metric)
      requires forall k | k in order :: k in table
      ensures m == BestMetric(table, order, start)
    {
      m := start;
      for i := 0 to |order|
        invariant m == BestMetric(table, order[..i], start)
      {
        var r := table[order[i]];
        if Usable(r) && r.metric < m {
          m := r.metric;
        }
        assert order[..i + 1][..i] == order[..i];
      }
      assert order[..|order|] == order;
    }

    /** Whether a collected candidate already uses the forwarding path of r. */
    method IsDuplicate(table: map<RouteKey, Route>, candidates: seq<RouteKey>, r: Route) returns (duplicate: bool)
      requires forall k | k in candidates :: k in table
      ensures duplicate <==> exists c | c in candidates :: SameForwardingPath(table[c], r)
    {
      duplicate := false;
      for j := 0 to |candidates|
        invariant !duplicate
        invariant forall i | 0 <= i < j :: !SameForwardingPath(table[candidates[i]], r)
      {
        if SameForwardingPath(table[candidates[j]], r) {
          return true;
        }
      }
    }

    /** The second loop of the export: usable routes within the limit, one for each forwarding path. */
    method Gather(table: map<RouteKey, Route>, order: seq<RouteKey>, sel: RouteKey, limit: int)
      returns (candidates: seq<RouteKey>)
      requires sel in table && forall k | k in order :: k in table
      ensures candidates == Collect(table, order, sel, limit)
    {
      candidates := [sel];
      for i := 0 to |order|
        invariant candidates == Collect(table, order[..i], sel, limit)
      {
        var k := order[i];
        var r := table[k];
        assert order[..i + 1][..i] == order[..i];
        if k != sel && Usable(r) {
          var duplicate := IsDuplicate(table, candidates, r);
          if !duplicate && r.metric <= limit {
            candidates := candidates + [k];
          }
        }
      }
      assert order[..|order|] == order;
    }

    /** exportCandidatesLocked */
    method Exported(table: map<RouteKey, Route>, order: seq<RouteKey>, sel: Option<RouteKey>) returns (out: seq<RouteKey>)
      requires forall k | k in order :: k in table
      requires sel.Some? ==> sel.value in table
      ensures out == ExportCandidates(table, order, sel, maxPaths, slack)
    {
      if sel.None? {
        return [];
      }
      var s := sel.value;
      if table[s].Local() {
        return [s];
      }
      hide BestMetric, Collect, SortStable, SameForwardingPath, Usable;
      var bestMetric := LowestMetric(table, order, table[s].metric);
      var candidates := Gather(table, order, s, bestMetric + slack);
      out := Finish(table, candidates, PathLimit(maxPaths));
    }

    /** Refresh the routes of one prefix, choose among them and set their flags. */
    method PickRoute(p: Prefix, costs: RouteKey -> Metric) returns (sel: Option<RouteKey>)
      requires KeysMatch(routes)
      modifies this`routes
      ensures OnlyPrefix(old(routes), costs, routes, p, sel)
      ensures KeysMatch(routes)
      ensures Chosen(ForPrefix(routes, p), Prior(selected, p), sel)
    {
      var order := InSomeOrder(ForPrefix(routes, p).Keys);
      var candidates := RefreshRoutes(order, costs);
      ghost var refreshed := routes;
      sel := Choose(candidates, Prior(selected, p));
      MarkSelected(order, sel);
      RefreshThenMark(old(routes), refreshed, routes, order, p, costs, sel);
      ChosenDespiteFlags(refreshed, routes, p, candidates, Prior(selected, p), sel);
    }

    /** exportFingerprintLocked */
    method Fingerprint(p: Prefix, sel: Option<RouteKey>) returns (fp: Print)
      requires sel.Some? ==> sel.value in routes && sel.value.prefix == p
      ensures Prints(Snapshot().cfg, ForPrefix(routes, p), sel, fp)
      ensures ChangeReport.Fingerprints(Snapshot().cfg, ForPrefix(routes, p), sel, fp)
    {
      var table := ForPrefix(routes, p);
      var order := InSomeOrder(table.Keys);
      var out := Exported(table, order, sel);
      fp := PrintOf(table, out);
      ChangeReport.PrintIsFingerprint(Snapshot().cfg, table, sel, fp);
    }

    /** The selection of one prefix, with its fingerprint. */
    method SelectPrefix(p: Prefix, costs: RouteKey -> Metric) returns (sel: Option<RouteKey>, fp: Print)
      requires KeysMatch(routes)
      modifies this`routes
      ensures OnlyPrefix(old(routes), costs, routes, p, sel)
      ensures KeysMatch(routes)
      ensures Chosen(ForPrefix(routes, p), Prior(selected, p), sel)
      ensures Prints(Snapshot().cfg, ForPrefix(routes, p), sel, fp)
    {
      sel := PickRoute(p, costs);
      ChosenIsCandidate(ForPrefix(routes, p), Prior(selected, p), sel);
      fp := Fingerprint(p, sel);
    }

    /** Prefixes that were selected before but have disappeared entirely; the stored pointer is reported
        even when it is nil. */
    method ReportVanished(before: Report, newSelected: map<Prefix, Option<RouteKey>>) returns (rep: Report)
      modifies this`lastFingerprint
      ensures rep.updates == before.updates
      ensures forall p :: p in rep.changed <==> p in before.changed || p in selected.Keys - newSelected.Keys
      ensures forall o :: o in rep.retractions <==>
                o in before.retractions || exists p :: p in selected.Keys - newSelected.Keys && selected[p] == o
      ensures lastFingerprint == old(lastFingerprint) - (selected.Keys - newSelected.Keys)
    {
      rep := before;
      var vanished := InSomeOrder(selected.Keys - newSelected.Keys);
      for i := 0 to |vanished|
        invariant selected == old(selected) && rep.updates == before.updates
        invariant forall p :: p in rep.changed <==> p in before.changed || p in vanished[..i]
        invariant forall o :: o in rep.retractions <==>
                    o in before.retractions || exists p :: p in vanished[..i] && p in selected && selected[p] == o
        invariant lastFingerprint == old(lastFingerprint) - (set p | p in vanished[..i])
      {
        var p := vanished[i];
        assert p in vanished;
        assert vanished[..i + 1] == vanished[..i] + [p];
        rep := rep.(changed := rep.changed + [p], retractions := rep.retractions + [selected[p]]);
        lastFingerprint := lastFingerprint - {p};
      }
      assert vanished[..|vanished|] == vanished;
      assert (set p | p in vanished) == selected.Keys - newSelected.Keys;
    }

    /** One round of the report: what the new choice for p adds to it. */
    method ReportPrefix(before: Report, p: Prefix, sel: Option<RouteKey>, fp: Print) returns (rep: Report)
      ensures rep == ReportOne(before, p, Prior(selected, p), Lookup(lastFingerprint, p, []), sel, fp)
    {
      rep := before;
      if Lookup(lastFingerprint, p, []) != fp {
        rep := rep.(changed := rep.changed + [p]);
        if sel.Some? {
          rep := rep.(updates := rep.updates + [sel.value]);
        } else if Prior(selected, p).Some? {
          rep := rep.(retractions := rep.retractions + [Prior(selected, p)]);
        }
      }
    }

    /** One round of the loop over the prefixes. */
    method SelectNext(p: Prefix, costs: RouteKey -> Metric, ghost pre: State, ghost sofar: map<Prefix, Option<RouteKey>>,
                      ghost fps: map<Prefix, Print>)
      returns (sel: Option<RouteKey>, fp: Print)
      requires Unselected(pre) && KeysMatch(routes) && p !in sofar
      requires RoutesSoFar(pre, costs, routes, sofar)
      requires ChosenSoFar(pre, routes, sofar)
      requires PrintedSoFar(pre.cfg, routes, sofar, fps)
      modifies this`routes
      ensures Unselected(pre) && KeysMatch(routes)
      ensures RoutesSoFar(pre, costs, routes, sofar[p := sel])
      ensures ChosenSoFar(pre, routes, sofar[p := sel])
      ensures PrintedSoFar(pre.cfg, routes, sofar[p := sel], fps[p := fp])
      ensures sel.Some? ==> sel.value.prefix == p
    {
      ghost var before := routes;
      sel, fp := SelectPrefix(p, costs);
      RoutesGrow(pre, costs, before, routes, sofar, p, sel);
      ChoicesGrow(pre, costs, before, routes, sofar, p, sel);
      PrintsGrow(pre.cfg, costs, before, routes, sofar, fps, p, sel, fp);
      ChosenIsCandidate(ForPrefix(routes, p), Prior(selected, p), sel);
    }

    /** Everything but the route table is still as it was in pre. */
    ghost predicate Unselected(pre: State)
      reads this
    {
      Snapshot() == pre.(routes := routes)
    }

    /** The loop over the prefixes of the table. */
    method SelectAll(prefixes: seq<Prefix>, costs: RouteKey -> Metric, ghost pre: State)
      returns (newSelected: map<Prefix, Option<RouteKey>>, newFingerprints: map<Prefix, Print>, rep: Report)
      requires pre == Snapshot() && KeysMatch(routes)
      requires Enumerates(prefixes, Prefixes(routes))
      modifies this`routes
      ensures Unselected(pre)
      ensures newSelected.Keys == Prefixes(pre.routes)
      ensures RoutesSoFar(pre, costs, routes, newSelected)
      ensures ChosenSoFar(pre, routes, newSelected)
      ensures PrintedSoFar(pre.cfg, routes, newSelected, newFingerprints)
      ensures ReportsLive(pre, newSelected, newFingerprints, rep)
    {
      hide KeysMatch, RoutesSoFar, ChosenSoFar, PrintedSoFar, ReportsLive, ReportOne, Reselect;
      newSelected, newFingerprints, rep := map[], map[], NO_REPORT;
      SelectionStarts(pre, costs);
      for i := 0 to |prefixes|
        invariant newSelected.Keys == set p | p in prefixes[..i]
        invariant Unselected(pre) && KeysMatch(routes)
        invariant RoutesSoFar(pre, costs, routes, newSelected)
        invariant ChosenSoFar(pre, routes, newSelected)
        invariant PrintedSoFar(pre.cfg, routes, newSelected, newFingerprints)
        invariant ReportsLive(pre, newSelected, newFingerprints, rep)
      {
        var p := prefixes[i];
        assert p !in prefixes[..i];
        var sel, fp := SelectNext(p, costs, pre, newSelected, newFingerprints);
        ReportGrows(pre, newSelected, newFingerprints, rep, p, sel, fp);
        rep := ReportPrefix(rep, p, sel, fp);
        newSelected := newSelected[p := sel];
        newFingerprints := newFingerprints[p := fp];
        assert prefixes[..i + 1] == prefixes[..i] + [p];
      }
      assert prefixes[..|prefixes|] == prefixes;
    }

    /** runSelectionLocked */
    method RunSelection(costs: RouteKey -> Metric) returns (rep: Report)
      requires Keyed(Snapshot())
      modifies this`routes, this`selected, this`lastFingerprint
      ensures SelectionStep(old(Snapshot()), costs, Snapshot(), rep)
      ensures Consistent(Snapshot())
    {
      ghost var pre := Snapshot();
      var prefixes := InSomeOrder(Prefixes(routes));
      var newSelected, newFingerprints, live := SelectAll(prefixes, costs, pre);
      rep := ReportVanished(live, newSelected);
      Overlay(pre.prints, selected.Keys - newSelected.Keys, newFingerprints);
      selected := newSelected;
      lastFingerprint := lastFingerprint + newFingerprints;
      SoFarComplete(pre, costs, Snapshot());
      ReportComplete(pre, Snapshot(), live, rep);
      SelectionKeepsInvariant(pre, costs, Snapshot(), rep);
    }

    // ---- Public operations: a table change, then a selection ----

    method OnUpdateReceived(n: Neighbour, upd: Update, path: Path, now: nat, costs: RouteKey -> Metric) returns (rep: Report)
      requires Consistent(Snapshot())
      modifies this
      ensures Consistent(Snapshot())
      ensures OpStep(old(Snapshot()), Receive(n, upd, path, now), costs, Snapshot(), rep)
    {
      hide Consistent, Keyed, SelectionStep, Acquire;
      TableIsKeyed(Snapshot(), Receive(n, upd, path, now));
      var acquired := AcquireRoute(n, upd, path, now);
      if !acquired {
        return NO_REPORT;
      }
      rep := RunSelection(costs);
    }

    /** The received update enters the table, field by field and with a new hold time, or is ignored. */
    method AcquireRoute(n: Neighbour, upd: Update, path: Path, now: nat) returns (acquired: bool)
      modifies this`routes
      ensures Acquire(old(Snapshot()), n, upd, path, now) == if acquired then Some(Snapshot()) else None
      ensures |upd.rid| == 8 ==> (acquired <==> Lifetime.Accepts(old(Snapshot()), n, upd))
      ensures acquired ==> Lifetime.StoredIn(old(Snapshot()), n, upd, path, now, Snapshot())
      ensures !acquired ==> Snapshot() == old(Snapshot())
    {
      acquired := StoreUpdate(n, upd, path, now);
      ghost var pre, post := old(Snapshot()), Snapshot();
      hide Acquire;
      if |upd.rid| == 8 {
        Lifetime.AcceptsIsAcquire(pre, n, upd, path, now);
      }
      if acquired {
        Lifetime.AcquireStores(pre, n, upd, path, now, post);
      }
    }

    /** The branches of the acquisition. */
    method StoreUpdate(n: Neighbour, upd: Update, path: Path, now: nat) returns (acquired: bool)
      modifies this`routes
      ensures Acquire(old(Snapshot()), n, upd, path, now) == if acquired then Some(Snapshot()) else None
      ensures !acquired ==> Snapshot() == old(Snapshot())
    {
      ghost var pre := Snapshot();
      var p := Normalize(upd.prefix);
      if upd.rid == UNSPECIFIED_ID {
        return false;
      }
      var key := SourceKey(p, upd.rid);
      var feasible := upd.metric == RETRACTION || key !in sources || Feasible(sources[key].distance, upd.seqno, upd.metric);
      assert feasible <==> UpdateFeasible(pre, key, upd);
      hide UpdateFeasible, Feasible, Normalize;
      var k := RouteKey(p, n.address);
      if k !in routes {
        if !feasible || upd.metric == RETRACTION {
          return false;
        }
        var nextHop := if upd.nextHop.NoAddr? then n.address else upd.nextHop;
        routes := routes[k := Route(p, upd.rid, Some(n), upd.metric, 0, 0, upd.seqno, nextHop, true, false,
                                    Some(now + routeExpiry), false, path)];
      } else {
        var r := routes[k];
        if r.selected && !feasible && r.rid == upd.rid {
          return false;
        }
        r := r.(rid := upd.rid, seqno := upd.seqno, advertised := upd.metric, feasible := feasible, expired := false);
        if !upd.nextHop.NoAddr? {
          r := r.(nextHop := upd.nextHop);
        }
        routes := routes[k := r.(path := path, expiry := Some(now + routeExpiry))];
      }
      acquired := true;
    }

    /** The caller's prefix is valid or the call is refused. */
    method AdvertisePrefix(prefix: Prefix, metric: Metric, costs: RouteKey -> Metric) returns (ok: bool, rep: Report)
      requires Consistent(Snapshot())
      modifies this
      ensures ok <==> prefix.Valid()
      ensures Consistent(Snapshot())
      ensures OpStep(old(Snapshot()), Advertise(prefix, metric), costs, Snapshot(), rep)
    {
      hide Consistent, Keyed, SelectionStep, AdvertiseTable, Masked;
      TableIsKeyed(Snapshot(), Advertise(prefix, metric));
      if !prefix.Valid() {
        return false, NO_REPORT;
      }
      ok := true;
      AdvertiseMasked(Snapshot(), prefix, metric);
      var changed := AdvertiseRoute(Masked(prefix), metric);
      if !changed {
        return true, NO_REPORT;
      }
      rep := RunSelection(costs);
    }

    /** The local route of a masked prefix enters the table under a new sequence number, or is there already. */
    method AdvertiseRoute(p: Prefix, metric: Metric) returns (changed: bool)
      requires Masked(p) == p
      modifies this`routes, this`localSeqNo
      ensures AdvertiseTable(old(Snapshot()), p, metric) == if changed then Some(Snapshot()) else None
      ensures !changed ==> Snapshot() == old(Snapshot())
    {
      var k := RouteKey(p, NoAddr);
      if k in routes {
        if routes[k].advertised == metric && routes[k].seqno == localSeqNo {
          return false;
        }
        localSeqNo := (localSeqNo + 1) % 0x1_0000;
        routes := routes[k := routes[k].(advertised := metric, seqno := localSeqNo, expiry := None)];
      } else {
        localSeqNo := (localSeqNo + 1) % 0x1_0000;
        routes := routes[k := Route(p, self, None, metric, metric, metric, localSeqNo, NoAddr, true, false,
                                    None, false, Path(0, 0, -1, 0))];
      }
      changed := true;
    }

    method WithdrawPrefix(prefix: Prefix, costs: RouteKey -> Metric) returns (ok: bool, rep: Report)
      requires Consistent(Snapshot())
      modifies this
      ensures ok <==> prefix.Valid()
      ensures Consistent(Snapshot())
      ensures OpStep(old(Snapshot()), Withdraw(prefix), costs, Snapshot(), rep)
    {
      hide Consistent, Keyed, SelectionStep;
      ghost var pre, op := Snapshot(), Withdraw(prefix);
      TableIsKeyed(pre, op);
      if !prefix.Valid() {
        return false, NO_REPORT;
      }
      ok := true;
      var k := RouteKey(Masked(prefix), NoAddr);
      if k !in routes {
        return true, NO_REPORT;
      }
      routes := routes - {k};
      assert Snapshot() == Table(pre, op).state;
      rep := RunSelection(costs);
    }

    method OnNeighbourRemoved(n: Neighbour, costs: RouteKey -> Metric) returns (rep: Report)
      requires Consistent(Snapshot())
      modifies this
      ensures Consistent(Snapshot())
      ensures OpStep(old(Snapshot()), NeighbourRemoved(n), costs, Snapshot(), rep)
    {
      hide Consistent, Keyed, SelectionStep;
      ghost var pre, op := Snapshot(), NeighbourRemoved(n);
      TableIsKeyed(pre, op);
      RemoveRoutesOf(n);
      assert Snapshot() == Table(pre, op).state;
      rep := RunSelection(costs);
    }

    /** RouteTable.RemoveNeighbour */
    method RemoveRoutesOf(n: Neighbour)
      modifies this`routes
      ensures routes == RemoveNeighbourTable(old(Snapshot()), n).routes
    {
      ghost var pre := routes;
      var order := InSomeOrder(routes.Keys);
      for i := 0 to |order|
        invariant routes == map k | k in pre && !(k in order[..i] && pre[k].neighbour == Some(n)) :: pre[k]
      {
        var k := order[i];
        assert order[..i + 1] == order[..i] + [k];
        assert k !in order[..i];
        if routes[k].neighbour == Some(n) {
          routes := routes - {k};
        }
      }
      assert order[..|order|] == order;
    }

    method OnNeighbourCostChanged(costs: RouteKey -> Metric) returns (rep: Report)
      requires Consistent(Snapshot())
      modifies this
      ensures Consistent(Snapshot())
      ensures OpStep(old(Snapshot()), CostChanged, costs, Snapshot(), rep)
    {
      rep := RunSelection(costs);
    }

    /** The penalty acts through the costs of the links, from the next selection on. */
    method UpdateECMPParams(maxPaths: int, slack: nat, penalty: real, costs: RouteKey -> Metric) returns (rep: Report)
      requires Consistent(Snapshot())
      modifies this
      ensures Consistent(Snapshot())
      ensures OpStep(old(Snapshot()), EcmpParams(maxPaths, slack, penalty), costs, Snapshot(), rep)
    {
      var changed := false;
      if this.maxPaths != maxPaths {
        this.maxPaths := maxPaths;
        changed := true;
      }
      if this.slack != slack {
        this.slack := slack;
        changed := true;
      }
      if this.penalty != penalty {
        this.penalty := penalty;
        changed := true;
      }
      if !changed {
        return NO_REPORT;
      }
      rep := RunSelection(costs);
    }

    method SweepTables(now: nat, costs: RouteKey -> Metric) returns (rep: Report)
      requires Consistent(Snapshot())
      modifies this
      ensures Consistent(Snapshot())
      ensures OpStep(old(Snapshot()), Sweep(now), costs, Snapshot(), rep)
    {
      hide Consistent, Keyed, SelectionStep;
      ghost var pre, op := Snapshot(), Sweep(now);
      TableIsKeyed(pre, op);
      SweepRoutes(now);
      SweepSources(now);
      assert Snapshot() == Table(pre, op).state;
      rep := RunSelection(costs);
    }

    /** Expire the routes whose hold time passed, and drop those that were retracted already. */
    method SweepRoutes(now: nat)
      modifies this`routes
      ensures routes == SweepTable(old(Snapshot()), now).routes
    {
      hide Due, Expire, SweptRoutes;
      ghost var pre := routes;
      assert SweptRoutes(pre, [], now, routeExpiry) == pre by { NothingSwept(pre, now, routeExpiry); }
      var order := InSomeOrder(routes.Keys);
      for i := 0 to |order|
        invariant routes == SweptRoutes(pre, order[..i], now, routeExpiry)
      {
        assert order[i] !in order[..i];
        SweepStep(pre, order, i, now, routeExpiry);
        SweepOne(order[i], now);
      }
      assert order[..|order|] == order;
      AllSwept(old(Snapshot()), order, now);
    }

    /** One round of the sweep. */
    method SweepOne(k: RouteKey, now: nat)
      requires k in routes
      modifies this`routes
      ensures routes == if Due(old(routes)[k], now) && old(routes)[k].metric == RETRACTION then old(routes) - {k}
                        else old(routes)[k := Expire(old(routes)[k], now, routeExpiry)]
    {
      var r := routes[k];
      if !r.Local() && r.expiry.Some? && now >= r.expiry.value {
        if r.metric != RETRACTION {
          routes := routes[k := r.(metric := RETRACTION, expired := true, expiry := Some(now + routeExpiry))];
        } else {
          routes := routes - {k};
        }
      } else {
        assert routes == routes[k := r];
      }
    }

    method SweepSources(now: nat)
      modifies this`sources
      ensures sources == SweepTable(old(Snapshot()), now).sources
    {
      ghost var pre := sources;
      var order := InSomeOrder(sources.Keys);
      for i := 0 to |order|
        invariant sources == map k | k in pre && !(k in order[..i] && now > pre[k].gc) :: pre[k]
      {
        var k := order[i];
        assert order[..i + 1] == order[..i] + [k];
        assert k !in order[..i];
        if now > sources[k].gc {
          sources := sources - {k};
        }
      }
      assert order[..|order|] == order;
    }

    /** encodeRoutes: the source table is tightened before each finite update is written; each comes with its router-id
        and, where the interface has an address for it, its next hop. */
    method EncodeRoutes(rs: seq<Route>, i: Interface, quality: Route -> Quality, now: nat) returns (values: seq<Tlv>)
      requires Consistent(Snapshot())
      modifies this`sources
      ensures Consistent(Snapshot())
      ensures Snapshot() == EncodeAll(old(Snapshot()), rs, now)
      ensures values == AllLines(i, Outgoings(old(Snapshot()), rs, i, quality))
    {
      hide Consistent, EncodeTable, Encoded, Lines;
      ghost var pre := Snapshot();
      ghost var out: seq<Outgoing> := [];
      values := [];
      for k := 0 to |rs|
        invariant Consistent(Snapshot())
        invariant Snapshot() == EncodeAll(pre, rs[..k], now) && Snapshot().cfg == pre.cfg
        invariant out == Outgoings(pre, rs[..k], i, quality) && values == AllLines(i, out)
      {
        assert rs[..k + 1][..k] == rs[..k];
        EncodedByConfig(pre, Snapshot(), rs[k], HopOn(i, rs[k].prefix));
        var u := EncodeRoute(rs[k], HopOn(i, rs[k].prefix), now);
        if u.Some? {
          var lines := Lines(i, u.value, quality(rs[k]));
          OneMoreLine(i, out, Outgoing(u.value, quality(rs[k])), lines);
          out := out + [Outgoing(u.value, quality(rs[k]))];
          values := values + lines;
        }
      }
      assert rs[..|rs|] == rs;
    }

    /** One round of encodeRoutes: what is written for the route, if anything. */
    method EncodeRoute(r: Route, hop: Addr, now: nat) returns (u: Option<Update>)
      requires Consistent(Snapshot())
      modifies this`sources
      ensures Consistent(Snapshot())
      ensures Snapshot() == EncodeTable(old(Snapshot()), r, now) && Snapshot().cfg == old(Snapshot()).cfg
      ensures u == Encoded(old(Snapshot()), r, hop)
    {
      hide Consistent, SentFinite;
      ghost var pre := Snapshot();
      u := Encoded(Snapshot(), r, hop);
      QuietKeepsInvariant(pre, Encode(r, now));
      if u.Some? {
        SourceFeasibility(SourceKey(r.prefix, u.value.rid), u.value.seqno, u.value.metric, now);
      }
      assert Snapshot() == EncodeTable(pre, r, now);
    }

    /** sourceFeasibilityLocked */
    method SourceFeasibility(key: SourceKey, seqno: SeqNo, metric: int, now: nat)
      modifies this`sources
      ensures Snapshot() == SentFinite(old(Snapshot()), key, seqno, metric, now)
    {
      if key !in sources {
        sources := sources[key := Source(Distance(seqno, metric), now + sourceGC)];
      } else {
        var d := sources[key].distance;
        if SeqnoLess(d.seqno, seqno) {
          d := Distance(seqno, metric);
        } else if d.seqno == seqno && metric < d.metric {
          d := d.(metric := metric);
        }
        sources := sources[key := Source(d, now + sourceGC)];
      }
    }

    /** handleSeqnoRequest: the selected route to send in reply, or else the neighbour to forward the request to, with
        the hop count it then has. */
    method HandleSeqnoRequest(n: Neighbour, prefix: Prefix, rid: RouterId, seqno: SeqNo, hopCount: Byte)
      returns (send: Option<RouteKey>, forward: Option<(Neighbour, Byte)>)
      requires Consistent(Snapshot())
      modifies this
      ensures Consistent(Snapshot())
      ensures (send, Snapshot()) == AnswerSeqnoRequest(old(Snapshot()), prefix, rid, seqno)
      ensures send.Some? || hopCount < 2 ==> forward == None
      ensures send.None? && hopCount >= 2 ==>
                && (forward.Some? ==> forward.value.1 == hopCount - 1)
                && Onward(ForPrefix(routes, prefix), n, if forward.Some? then Some(forward.value.0) else None)
    {
      hide Consistent, AnswerSeqnoRequest;
      AnswerKeepsInvariant(Snapshot(), prefix, rid, seqno);
      send := Answer(prefix, rid, seqno);
      forward := None;
      if send.None? && hopCount >= 2 {
        var next := ForwardNeighbour(prefix, n);
        if next.Some? {
          forward := Some((next.value, hopCount - 1));
        }
      }
    }

    /** forwardNeighbourLocked */
    method ForwardNeighbour(p: Prefix, requesting: Neighbour) returns (next: Option<Neighbour>)
      ensures Onward(ForPrefix(routes, p), requesting, next)
    {
      var table := ForPrefix(routes, p);
      var order := InSomeOrder(table.Keys);
      for i := 0 to |order|
        invariant forall j | 0 <= j < i :: !(Usable(table[order[j]]) && LeadsOn(table[order[j]], requesting))
      {
        if Usable(table[order[i]]) && LeadsOn(table[order[i]], requesting) {
          return table[order[i]].neighbour;
        }
      }
      for i := 0 to |order|
        invariant forall j | 0 <= j < i :: !LeadsOn(table[order[j]], requesting)
      {
        if LeadsOn(table[order[i]], requesting) {
          return table[order[i]].neighbour;
        }
      }
      return None;
    }

    method Answer(prefix: Prefix, rid: RouterId, seqno: SeqNo) returns (send: Option<RouteKey>)
      modifies this`routes, this`localSeqNo
      ensures (send, Snapshot()) == AnswerSeqnoRequest(old(Snapshot()), prefix, rid, seqno)
    {
      send := None;
      var sel := Prior(selected, Masked(prefix));
      if sel.Some? && sel.value in routes && routes[sel.value].metric != RETRACTION {
        var r := routes[sel.value];
        if r.rid != rid || !SeqnoLess(r.seqno, seqno) {
          send := sel;
        } else if r.rid == self {
          localSeqNo := (localSeqNo + 1) % 0x1_0000;
          routes := routes[sel.value := r.(seqno := localSeqNo)];
          send := sel;
        }
      }
    }
  }
}
