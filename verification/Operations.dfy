/** What each operation of a speaker does, in terms of the fields of routes and source entries: which routes there are
    afterwards, what changed in them, and what was left alone. Received updates are in Lifetime. */
module Operations {
  import opened Net
  import opened BabelTypes
  import opened SpeakerState
  import opened RouteChoice

  // ---- What a table change may leave alone ----

  /** The routes in ks were refreshed by a selection and otherwise left alone. */
  ghost predicate OnlyRefreshed(s: State, costs: RouteKey -> Metric, s': State, ks: set<RouteKey>) {
    forall k | k in ks :: k in s.routes && k in s'.routes && Refreshed(s.routes[k], costs(k), s'.routes[k])
  }

  lemma RefreshedAfter(s: State, t: State, costs: RouteKey -> Metric, s': State, rep: Report, ks: set<RouteKey>)
    requires SelectionStep(t, costs, s', rep) && forall k | k in ks :: k in s.routes && k in t.routes && t.routes[k] == s.routes[k]
    ensures s'.routes.Keys == t.routes.Keys && OnlyRefreshed(s, costs, s', ks)
    ensures s'.cfg == t.cfg && s'.sources == t.sources && s'.seqno == t.seqno
  {
    hide SelectionStep, Refreshed;
    SelectionRefreshes(t, costs, s', rep);
  }

  /** Sequence numbers are counted modulo 65536. */
  predicate Counted(before: SeqNo, after: SeqNo) { after == if before == 65535 then 0 else before + 1 }

  // ---- Own prefixes ----

  /** The local route of a prefix as it is advertised. */
  predicate Advertised(r: Route, q: Prefix, metric: Metric, seqno: SeqNo) {
    && r.prefix == q && r.neighbour == None && r.advertised == metric && r.metric == metric && r.seqno == seqno
    && r.feasible && r.expiry == None
  }

  /** What the table holds before the selection. */
  ghost predicate Announced(s: State, k: RouteKey, metric: Metric, t: State) {
    && t == s.(routes := t.routes, seqno := t.seqno) && Counted(s.seqno, t.seqno)
    && k in t.routes && t.routes == s.routes[k := t.routes[k]] && t.routes[k].prefix == k.prefix && t.routes[k].neighbour == None
    && t.routes[k].advertised == metric && t.routes[k].seqno == t.seqno && t.routes[k].expiry == None
    && (k !in s.routes ==> t.routes[k].rid == s.cfg.self && t.routes[k].nextHop == NoAddr && !t.routes[k].expired)
    && (k in s.routes ==> t.routes[k].rid == s.routes[k].rid)
  }

  lemma AdvertisedTable(s: State, p: Prefix, metric: Metric, k: RouteKey)
    requires k == RouteKey(Masked(p), NoAddr) && (k in s.routes ==> s.routes[k].Local() && s.routes[k].Key() == k)
    ensures var t := AdvertiseTable(s, p, metric);
            if k in s.routes && s.routes[k].advertised == metric && s.routes[k].seqno == s.seqno then t == None
            else t.Some? && Announced(s, k, metric, t.value)
  {
    hide Masked;
  }

  lemma KeyHolds(s: State, k: RouteKey)
    requires Consistent(s)
    ensures k in s.routes ==> s.routes[k].Key() == k
  {
    hide Printed, SelectionValid, FlagsAgree;
  }

  lemma AdvertisedSelected(s: State, k: RouteKey, metric: Metric, t: State, costs: RouteKey -> Metric, s': State, rep: Report)
    requires Announced(s, k, metric, t) && SelectionStep(t, costs, s', rep)
    ensures s' == s.(routes := s'.routes, selected := s'.selected, prints := s'.prints, seqno := s'.seqno)
    ensures Counted(s.seqno, s'.seqno) && s'.routes.Keys == s.routes.Keys + {k} && OnlyRefreshed(s, costs, s', s.routes.Keys - {k})
    ensures Advertised(s'.routes[k], k.prefix, metric, s'.seqno)
    ensures k !in s.routes ==> s'.routes[k].rid == s.cfg.self && s'.routes[k].nextHop == NoAddr && !s'.routes[k].expired
    ensures k in s.routes ==> s'.routes[k].rid == s.routes[k].rid
  {
    hide SelectionStep, Refreshed, Counted;
    RefreshedAfter(s, t, costs, s', rep, s.routes.Keys - {k});
    SelectionRefreshes(t, costs, s', rep);
    LocalRefreshed(t.routes[k], costs(k), s'.routes[k]);
    SelectionFrame(t, costs, s', rep);
  }

  lemma SelectionFrame(t: State, costs: RouteKey -> Metric, s': State, rep: Report)
    requires SelectionStep(t, costs, s', rep)
    ensures s' == t.(routes := s'.routes, selected := s'.selected, prints := s'.prints)
  {
  }

  lemma LocalRefreshed(a: Route, cost: Metric, b: Route)
    requires Refreshed(a, cost, b) && a.neighbour.None?
    ensures b.metric == a.advertised
    ensures b == a.(metric := b.metric, smoothed := b.smoothed, feasible := true, selected := b.selected)
  {
    hide SmoothedBy;
  }

  /** An invalid prefix or a repetition changes nothing. Otherwise the sequence number is raised and the local route of the
      masked prefix carries it with the metric; a new one is of the speaker's own router-id. */
  lemma AdvertiseMeans(s: State, p: Prefix, metric: Metric, costs: RouteKey -> Metric, s': State, rep: Report, k: RouteKey)
    requires Consistent(s) && OpStep(s, Advertise(p, metric), costs, s', rep) && k == RouteKey(Masked(p), NoAddr)
    requires k in s.routes ==> s.routes[k].Local()
    ensures if !p.Valid() || (k in s.routes && s.routes[k].advertised == metric && s.routes[k].seqno == s.seqno) then
              s' == s && rep == NO_REPORT
            else
              && s' == s.(routes := s'.routes, selected := s'.selected, prints := s'.prints, seqno := s'.seqno)
              && Counted(s.seqno, s'.seqno)
              && s'.routes.Keys == s.routes.Keys + {k} && OnlyRefreshed(s, costs, s', s.routes.Keys - {k})
              && Advertised(s'.routes[k], k.prefix, metric, s'.seqno)
              && (k !in s.routes ==> s'.routes[k].rid == s.cfg.self && s'.routes[k].nextHop == NoAddr && !s'.routes[k].expired)
              && (k in s.routes ==> s'.routes[k].rid == s.routes[k].rid)
  {
    hide Masked, SelectionStep, Announced, AdvertiseTable, Advertised, OnlyRefreshed, Consistent;
    var t := AdvertiseTable(s, p, metric);
    KeyHolds(s, k);
    AdvertisedTable(s, p, metric, k);
    if p.Valid() && t.Some? {
      AdvertisedSelected(s, k, metric, t.value, costs, s', rep);
    }
  }

  /** Withdrawing takes the local route of the masked prefix out, and nothing else. */
  lemma WithdrawMeans(s: State, p: Prefix, costs: RouteKey -> Metric, s': State, rep: Report)
    requires OpStep(s, Withdraw(p), costs, s', rep)
    ensures var k := RouteKey(Masked(p), NoAddr);
            if !p.Valid() || k !in s.routes then s' == s && rep == NO_REPORT
            else
              && s' == s.(routes := s'.routes, selected := s'.selected, prints := s'.prints)
              && s'.routes.Keys == s.routes.Keys - {k} && OnlyRefreshed(s, costs, s', s'.routes.Keys)
  {
    hide Masked, SelectionStep, Refreshed;
    var t, k := WithdrawTable(s, p), RouteKey(Masked(p), NoAddr);
    if p.Valid() && t.Some? {
      RefreshedAfter(s, t.value, costs, s', rep, s.routes.Keys - {k});
      SelectionFrame(t.value, costs, s', rep);
    }
  }

  // ---- Neighbours and parameters ----

  /** The routes learnt from the neighbour go, the others stay. */
  lemma RemovalMeans(s: State, gone: Neighbour, costs: RouteKey -> Metric, s': State, rep: Report)
    requires OpStep(s, NeighbourRemoved(gone), costs, s', rep)
    ensures s' == s.(routes := s'.routes, selected := s'.selected, prints := s'.prints)
    ensures OnlyRefreshed(s, costs, s', s'.routes.Keys)
    ensures forall k :: k in s'.routes <==> k in s.routes && s.routes[k].neighbour != Some(gone)
  {
    hide SelectionStep, Refreshed;
    var t := RemoveNeighbourTable(s, gone);
    RefreshedAfter(s, t, costs, s', rep, t.routes.Keys);
    SelectionFrame(t, costs, s', rep);
    assert forall k :: k in t.routes <==> k in s.routes && s.routes[k].neighbour != Some(gone);
    assert forall k :: k in s'.routes.Keys <==> k in t.routes.Keys;
  }

  /** A changed link cost is taken up by every route at once. */
  lemma CostMeans(s: State, costs: RouteKey -> Metric, s': State, rep: Report)
    requires OpStep(s, CostChanged, costs, s', rep)
    ensures s' == s.(routes := s'.routes, selected := s'.selected, prints := s'.prints)
    ensures s'.routes.Keys == s.routes.Keys && OnlyRefreshed(s, costs, s', s.routes.Keys)
  {
    hide SelectionStep, Refreshed;
    RefreshedAfter(s, s, costs, s', rep, s.routes.Keys);
    SelectionFrame(s, costs, s', rep);
  }

  /** Other parameters are taken over and lead to a selection. */
  lemma ParamsMean(s: State, maxPaths: int, slack: nat, penalty: real, costs: RouteKey -> Metric, s': State, rep: Report)
    requires OpStep(s, EcmpParams(maxPaths, slack, penalty), costs, s', rep)
    ensures s'.cfg == Config(s.cfg.self, maxPaths, slack, penalty, s.cfg.routeExpiry, s.cfg.sourceGC)
    ensures s'.cfg == s.cfg ==> s' == s && rep == NO_REPORT
    ensures s'.cfg != s.cfg ==> s'.routes.Keys == s.routes.Keys && OnlyRefreshed(s, costs, s', s.routes.Keys)
  {
    hide SelectionStep, Refreshed;
    if s.cfg != Config(s.cfg.self, maxPaths, slack, penalty, s.cfg.routeExpiry, s.cfg.sourceGC) {
      var t := s.(cfg := s.cfg.(maxPaths := maxPaths, slack := slack, penalty := penalty));
      RefreshedAfter(s, t, costs, s', rep, s.routes.Keys);
      SelectionFrame(t, costs, s', rep);
    }
  }

  // ---- Time ----

  /** The route is learnt and its expiry is not after now. */
  predicate Over(r: Route, now: nat) { r.neighbour.Some? && r.expiry.Some? && r.expiry.value <= now }

  /** A route whose time is over is dropped if its metric is infinite already; otherwise it is expired, with the infinite metric,
      for one more hold time. All others stay. Source entries go once their time has passed. */
  lemma SweepMeans(s: State, now: nat, costs: RouteKey -> Metric, s': State, rep: Report)
    requires OpStep(s, Sweep(now), costs, s', rep)
    ensures s' == s.(routes := s'.routes, selected := s'.selected, prints := s'.prints, sources := s'.sources)
    ensures forall k :: k in s'.routes <==> k in s.routes && !(Over(s.routes[k], now) && s.routes[k].metric == 65535)
    ensures forall k | k in s'.routes && Over(s.routes[k], now) ::
              var r := s'.routes[k];
              && r == s.routes[k].(metric := 65535, smoothed := 65535, expired := true, expiry := Some(now + s.cfg.routeExpiry),
                                   selected := r.selected)
    ensures forall k | k in s'.routes && !Over(s.routes[k], now) :: Refreshed(s.routes[k], costs(k), s'.routes[k])
    ensures forall key :: key in s'.sources <==> key in s.sources && now <= s.sources[key].gc
    ensures forall key | key in s'.sources :: s'.sources[key] == s.sources[key]
  {
    hide SelectionStep, Refreshed;
    var t := SweepTable(s, now);
    SweptTable(s, now, t);
    SelectionRefreshes(t, costs, s', rep);
    SelectionFrame(t, costs, s', rep);
    assert forall k :: k in s'.routes.Keys <==> k in t.routes.Keys;
    forall k | k in s'.routes && Over(s.routes[k], now)
      ensures s'.routes[k] == s.routes[k].(metric := 65535, smoothed := 65535, expired := true,
                                           expiry := Some(now + s.cfg.routeExpiry), selected := s'.routes[k].selected)
    {
      ExpiredRefreshed(t.routes[k], costs(k), s'.routes[k]);
    }
  }

  lemma SweptTable(s: State, now: nat, t: State)
    requires t == SweepTable(s, now)
    ensures t == s.(routes := t.routes, sources := t.sources)
    ensures forall k :: k in t.routes <==> k in s.routes && !(Over(s.routes[k], now) && s.routes[k].metric == 65535)
    ensures forall k | k in t.routes ::
              t.routes[k] ==
                if Over(s.routes[k], now) then
                  s.routes[k].(metric := 65535, expired := true, expiry := Some(now + s.cfg.routeExpiry))
                else s.routes[k]
    ensures forall key :: key in t.sources <==> key in s.sources && now <= s.sources[key].gc
    ensures forall key | key in t.sources :: t.sources[key] == s.sources[key]
  {
  }

  lemma ExpiredRefreshed(a: Route, cost: Metric, b: Route)
    requires Refreshed(a, cost, b) && a.neighbour.Some? && a.expired
    ensures b == a.(metric := 65535, smoothed := 65535, selected := b.selected)
  {
  }

  // ---- Sending ----

  /** What is announced for a route: a local one under the speaker's own router-id with the metric it was advertised at, a learnt
      one with its own, and nothing for a learnt one of infinite metric. */
  lemma EncodedMeans(s: State, r: Route, hop: Addr)
    ensures var u := Encoded(s, r, hop);
            && (u.None? <==> r.neighbour.Some? && r.metric == 65535)
            && (u.Some? ==>
                  && u.value.prefix == r.prefix && u.value.seqno == r.seqno && u.value.nextHop == hop
                  && u.value.rid == (if r.neighbour.None? then s.cfg.self else r.rid)
                  && u.value.metric == (if r.neighbour.None? then r.advertised else r.metric))
  {
  }

  /** The entry that stays behind after a distance is sent: it is the newer of the two, and of two as new the smaller. */
  predicate Tightened(before: Option<Source>, seqno: SeqNo, metric: int, after: Distance) {
    if before.None? || SeqnoLess(before.value.distance.seqno, seqno) then after == Distance(seqno, metric)
    else if before.value.distance.seqno == seqno && metric < before.value.distance.metric then after == Distance(seqno, metric)
    else after == before.value.distance
  }

  /** Sending a route changes one source entry at most. */
  lemma EncodeMeans(s: State, r: Route, now: nat, costs: RouteKey -> Metric, s': State, rep: Report)
    requires OpStep(s, Encode(r, now), costs, s', rep)
    ensures rep == NO_REPORT && s' == s.(sources := s'.sources)
    ensures r.neighbour.Some? && r.metric == 65535 ==> s' == s
    ensures !(r.neighbour.Some? && r.metric == 65535) ==>
              var key := SourceKey(r.prefix, if r.neighbour.None? then s.cfg.self else r.rid);
              && s'.sources == s.sources[key := s'.sources[key]] && s'.sources[key].gc == now + s.cfg.sourceGC
              && Tightened(if key in s.sources then Some(s.sources[key]) else None, r.seqno,
                           if r.neighbour.None? then r.advertised else r.metric, s'.sources[key].distance)
  {
  }

  // ---- Requests ----

  /** A request is answered with the selected route of the prefix, if its metric is finite, unless it asks the same router-id for a
      newer number than the route has and the router-id is not the speaker's own. */
  predicate Answers(s: State, k: RouteKey, rid: RouterId, seqno: SeqNo) {
    k in s.routes && s.routes[k].metric < 65535
    && (s.routes[k].rid != rid || !SeqnoLess(s.routes[k].seqno, seqno) || rid == s.cfg.self)
  }

  /** Then, and only if it asks for a newer number under the speaker's own router-id, the number is raised by one. */
  lemma RequestMeans(s: State, p: Prefix, rid: RouterId, seqno: SeqNo, costs: RouteKey -> Metric, s': State, rep: Report)
    requires OpStep(s, Op.SeqnoRequest(p, rid, seqno), costs, s', rep)
    ensures var sel, reply := Prior(s.selected, Masked(p)), AnswerSeqnoRequest(s, p, rid, seqno).0;
            && rep == NO_REPORT && s' == s.(seqno := s'.seqno, routes := s'.routes)
            && (reply.Some? <==> sel.Some? && Answers(s, sel.value, rid, seqno)) && (reply.Some? ==> reply == sel)
            && (if sel.Some? && Answers(s, sel.value, rid, seqno) && s.routes[sel.value].rid == rid
                   && SeqnoLess(s.routes[sel.value].seqno, seqno) then
                  Counted(s.seqno, s'.seqno) && s'.routes == s.routes[sel.value := s.routes[sel.value].(seqno := s'.seqno)]
                else s' == s)
  {
    hide Masked;
  }

  /** Learnt from another neighbour than this one, and feasible and finite. */
  predicate Forwards(r: Route, requesting: Neighbour) {
    r.feasible && r.metric < 65535 && r.neighbour.Some? && r.neighbour != Some(requesting)
  }

  /** A request goes on to the neighbour of some feasible finite route, failing that to that of any route, and never back. */
  lemma OnwardMeans(routes: map<RouteKey, Route>, requesting: Neighbour, to: Option<Neighbour>)
    requires Onward(routes, requesting, to)
    ensures to != Some(requesting)
    ensures to == None <==> forall k | k in routes :: routes[k].neighbour in {None, Some(requesting)}
    ensures (exists k :: k in routes && Forwards(routes[k], requesting)) ==>
              exists k :: k in routes && Forwards(routes[k], requesting) && routes[k].neighbour == to
    ensures to.Some? ==> exists k :: k in routes && routes[k].neighbour == to
  {
    if k :| k in routes && Forwards(routes[k], requesting) {
      assert Usable(routes[k]) && LeadsOn(routes[k], requesting);
      var j :| j in routes && Usable(routes[j]) && LeadsOn(routes[j], requesting) && routes[j].neighbour == to;
      assert Forwards(routes[j], requesting);
    }
  }

  // ---- Received prefixes ----

  /** A received prefix is stored masked, and a 4-in-6 one as IPv4 where its length allows. */
  lemma NormalizeMeans(p: Prefix)
    ensures var q, m := Normalize(p), Masked(p);
            && q.addr == m.addr.Unmap() && !(q.addr.V6? && q.addr.Is4In6())
            && (m.addr.Is4In6() ==> q.bits == if 0 <= m.bits <= 32 then m.bits else -1) && (!m.addr.Is4In6() ==> q.bits == m.bits)
  {
    hide Masked;
  }
}
