/** What a selection does, in terms of the fields of routes and of numbers: how metrics and smoothed metrics are refreshed,
    which routes qualify, how they rank, and when the previous choice is kept. */
module RouteChoice {
  import opened Net
  import opened BabelTypes
  import opened SpeakerState
  import opened ExportSet
  import Selection

  // ---- Refreshing ----

  /** The sum of a link cost and an advertised metric, at most 65534 unless one of them is infinite. */
  predicate CappedSum(cost: Metric, advertised: Metric, sum: Metric) {
    if cost == 65535 || advertised == 65535 then sum == 65535
    else if cost + advertised <= 65534 then sum == cost + advertised else sum == 65534
  }

  /** The integer next to three quarters of the last value and a quarter of the metric, halves upwards, between 1 and 65534. */
  predicate SmoothedBy(last: Metric, metric: Metric, next: Metric) {
    if metric == 65535 then next == 65535
    else if last == 0 then next == metric
    else
      var quarters := 3 * last + metric;
      if quarters < 4 then next == 1
      else if quarters > 4 * 65534 then next == 65534 else quarters - 1 <= 4 * next <= quarters + 2
  }

  /** b is route a after a selection at this cost. */
  predicate Refreshed(a: Route, cost: Metric, b: Route) {
    && b == a.(metric := b.metric, smoothed := b.smoothed, feasible := b.feasible, selected := b.selected)
    && b.feasible == (a.neighbour.None? || a.feasible)
    && (if a.neighbour.None? then b.metric == a.advertised
        else if a.expired then b.metric == 65535 else CappedSum(cost, a.advertised, b.metric))
    && SmoothedBy(a.smoothed, b.metric, b.smoothed)
  }

  lemma SmoothIsNearest(last: Metric, metric: Metric)
    ensures SmoothedBy(last, metric, Smooth(last, metric))
  {
  }

  lemma LinkIsCapped(cost: Metric, advertised: Metric)
    ensures CappedSum(cost, advertised, LinkMetric(cost, advertised))
  {
  }

  lemma RefreshMeans(a: Route, cost: Metric, sel: Option<RouteKey>)
    ensures Refreshed(a, cost, Reselect(a, cost, sel))
  {
    hide Smooth, SmoothedBy;
    var b := Reselect(a, cost, sel);
    SmoothIsNearest(a.smoothed, b.metric);
  }

  /** One selection refreshes every route and touches nothing else of it but the flag. */
  lemma SelectionRefreshes(t: State, costs: RouteKey -> Metric, s': State, rep: Report)
    requires SelectionStep(t, costs, s', rep)
    ensures s'.routes.Keys == t.routes.Keys && forall k | k in t.routes :: Refreshed(t.routes[k], costs(k), s'.routes[k])
    ensures s'.cfg == t.cfg && s'.sources == t.sources && s'.seqno == t.seqno
    ensures forall k | k in t.routes && t.routes[k].Key() == k ::
              s'.routes[k].selected <==> k.prefix in s'.selected && s'.selected[k.prefix] == Some(k)
  {
    hide Refreshed, Printed, Reports, AllChosen, Refresh;
    assert Reselected(t.routes, costs, s'.selected, s'.routes);
    forall k | k in t.routes
      ensures Refreshed(t.routes[k], costs(k), s'.routes[k])
    {
      RefreshMeans(t.routes[k], costs(k), Prior(s'.selected, k.prefix));
    }
  }

  // ---- Ranking ----

  /** The first octet that differs is smaller. */
  predicate OctetsBefore(a: seq<Byte>, b: seq<Byte>) {
    exists i :: 0 <= i < |a| && i < |b| && a[..i] == b[..i] && a[i] < b[i]
  }

  /** A smaller metric; with equal metrics a next hop of fewer octets, or of as many and smaller ones; with the same next hop a
      smaller router-id. */
  predicate Outranks(a: Route, b: Route) {
    || a.metric < b.metric
    || (a.metric == b.metric && HopBefore(a.nextHop, b.nextHop))
    || (a.metric == b.metric && a.nextHop.Slice() == b.nextHop.Slice() && OctetsBefore(a.rid, b.rid))
  }

  predicate HopBefore(a: Addr, b: Addr) {
    |a.Slice()| < |b.Slice()| || (|a.Slice()| == |b.Slice()| && OctetsBefore(a.Slice(), b.Slice()))
  }

  lemma DigitsOrder(x: nat, y: nat, c: Byte, d: Byte)
    ensures 256 * x + c < 256 * y + d <==> x < y || (x == y && c < d)
    ensures 256 * x + c == 256 * y + d <==> x == y && c == d
  {
  }

  lemma LastDigit(a: seq<Byte>)
    requires a != []
    ensures var n := |a| - 1; Value(a) == 256 * Value(a[..n]) + a[n] && a == a[..n] + [a[n]]
  {
  }

  lemma {:induction false} ValueOrders(a: seq<Byte>, b: seq<Byte>)
    requires |a| == |b|
    ensures Value(a) < Value(b) <==> OctetsBefore(a, b)
    ensures Value(a) == Value(b) <==> a == b
  {
    if a != [] {
      hide Value, OctetsBefore;
      var n := |a| - 1;
      ValueOrders(a[..n], b[..n]);
      FrontDecides(a, b);
      LastDigit(a);
      LastDigit(b);
      DigitsOrder(Value(a[..n]), Value(b[..n]), a[n], b[n]);
    }
  }

  lemma FrontDecides(a: seq<Byte>, b: seq<Byte>)
    requires |a| == |b| > 0
    ensures var n := |a| - 1;
            OctetsBefore(a, b) <==> OctetsBefore(a[..n], b[..n]) || (a[..n] == b[..n] && a[n] < b[n])
  {
    var n := |a| - 1;
    if i :| 0 <= i < |a| && a[..i] == b[..i] && a[i] < b[i] {
      if i < n {
        assert a[..n][..i] == a[..i] == b[..i] == b[..n][..i];
        assert a[..n][i] < b[..n][i];
      } else {
        assert a[..i] == a[..n] && b[..i] == b[..n];
      }
    }
    if i :| 0 <= i < n && a[..n][..i] == b[..n][..i] && a[..n][i] < b[..n][i] {
      assert a[..i] == a[..n][..i] && b[..i] == b[..n][..i];
    }
  }

  /** Lexicographic order by metric, next hop and router-id, octet by octet. */
  lemma RouteLessMeans(a: Route, b: Route)
    requires |a.rid| == |b.rid|
    ensures RouteLess(a, b) <==> Outranks(a, b)
  {
    hide OctetsBefore, Value;
    if |a.nextHop.Slice()| == |b.nextHop.Slice()| {
      ValueOrders(a.nextHop.Slice(), b.nextHop.Slice());
      ValueOrders(b.nextHop.Slice(), a.nextHop.Slice());
    }
    ValueOrders(a.rid, b.rid);
  }

  // ---- Choosing ----

  /** Local, or unexpired and feasible with a finite metric. */
  predicate Qualifies(r: Route) { r.neighbour.None? || (!r.expired && r.feasible && r.metric < 65535) }

  /** k qualifies and no route that does outranks it. */
  predicate Foremost(routes: map<RouteKey, Route>, k: RouteKey) {
    k in routes && Qualifies(routes[k]) && forall j | j in routes && Qualifies(routes[j]) :: !Outranks(routes[j], routes[k])
  }

  predicate BeatsTwice(a: Route, b: Route) { a.metric < b.metric && a.smoothed < b.smoothed }

  predicate Holds(routes: map<RouteKey, Route>, prev: Option<RouteKey>) {
    prev.Some? && prev.value in routes && Qualifies(routes[prev.value])
  }

  /** What the choice among the routes of one prefix is, exactly. */
  ghost predicate Choice(routes: map<RouteKey, Route>, prev: Option<RouteKey>, sel: Option<RouteKey>) {
    && (sel.None? <==> forall k | k in routes :: !Qualifies(routes[k]))
    && (sel.Some? && sel != prev ==>
          Foremost(routes, sel.value) && (Holds(routes, prev) ==> BeatsTwice(routes[sel.value], routes[prev.value])))
    && (sel.Some? && sel == prev ==>
          Holds(routes, prev)
          && exists k :: Foremost(routes, k) && (k == prev.value || !BeatsTwice(routes[k], routes[prev.value])))
  }

  predicate IdsFit(routes: map<RouteKey, Route>) { forall k | k in routes :: |routes[k].rid| == 8 }

  lemma ForemostIsMinimal(routes: map<RouteKey, Route>, k: RouteKey)
    requires IdsFit(routes)
    ensures Foremost(routes, k) <==> Minimal(routes, Candidates(routes), k)
  {
    hide RouteLess, Outranks;
    forall j | j in routes && k in routes
      ensures Outranks(routes[j], routes[k]) <==> RouteLess(routes[j], routes[k])
    {
      RouteLessMeans(routes[j], routes[k]);
    }
    assert forall j :: j in Candidates(routes) <==> j in routes && Qualifies(routes[j]);
  }

  lemma ChosenMeans(routes: map<RouteKey, Route>, prev: Option<RouteKey>, sel: Option<RouteKey>)
    requires IdsFit(routes) && Chosen(routes, prev, sel)
    ensures Choice(routes, prev, sel)
  {
    hide RouteLess, Outranks, Foremost;
    var cands := Candidates(routes);
    assert forall j :: j in cands <==> j in routes && Qualifies(routes[j]);
    if cands != {} {
      var best :| Minimal(routes, cands, best) && sel == Some(Hysteresis(routes, cands, prev, best));
      ForemostIsMinimal(routes, best);
    }
  }

  /** After every operation that selects: nothing is chosen for a prefix exactly when no route qualifies; a new choice is
      outranked by no other and beats the previous one, where that still qualifies, in metric and in smoothed metric; and the
      previous one stays only where some foremost route does not beat it in both. */
  lemma ChoiceMeans(s: State, op: Op, costs: RouteKey -> Metric, s': State, rep: Report, p: Prefix)
    requires OpStep(s, op, costs, s', rep) && Table(s, op).Selecting? && p in s'.selected && IdsFit(s'.routes)
    ensures Choice(ForPrefix(s'.routes, p), Prior(s.selected, p), s'.selected[p])
  {
    hide Choice, Table, Chosen;
    Selection.TableKeepsSelection(s, op);
    var t := Table(s, op).state;
    assert AllChosen(t, s');
    ChosenMeans(ForPrefix(s'.routes, p), Prior(s.selected, p), s'.selected[p]);
  }

  /** A previous choice that no qualifying route beats in both is kept. */
  lemma UnbeatenIsKept(routes: map<RouteKey, Route>, prev: Option<RouteKey>, sel: Option<RouteKey>)
    requires Choice(routes, prev, sel) && Holds(routes, prev)
    requires forall k | k in routes && Qualifies(routes[k]) :: !BeatsTwice(routes[k], routes[prev.value])
    ensures sel == prev
  {
  }

  // ---- Exporting ----

  /** The octets of an address; those of a mapped IPv4 address are its last four. */
  function HopOctets(a: Addr): seq<Byte> {
    if a.V6? && |a.octets| == 16 && a.octets[..12] == [0, 0, 0, 0, 0, 0, 0, 0, 0, 0, 255, 255] then a.octets[12..] else a.Slice()
  }

  /** Learnt through one interface with one next hop. */
  predicate OneWay(a: Route, b: Route) {
    && a.neighbour.Some? && b.neighbour.Some? && a.neighbour.value.intf == b.neighbour.value.intf
    && HopOctets(a.nextHop) == HopOctets(b.nextHop)
  }

  predicate Carries(r: Route) { r.feasible && r.metric < 65535 }

  /** A route besides the selected one that is feasible and finite, and no worse by more than the slack than the selected one or
      any such route. */
  predicate WithinSlack(routes: map<RouteKey, Route>, sel: RouteKey, slack: nat, k: RouteKey) {
    && k in routes && k != sel && Carries(routes[k])
    && forall b | b in routes && (b == sel || Carries(routes[b])) :: routes[k].metric <= routes[b].metric + slack
  }

  lemma HopMeans(a: Addr, b: Addr)
    requires a.Valid() && b.Valid()
    ensures a.Unmap() == b.Unmap() <==> HopOctets(a) == HopOctets(b)
  {
    MappedMeans(a);
    MappedMeans(b);
  }

  lemma MappedMeans(a: Addr)
    requires a.Valid()
    ensures a.Is4In6() <==> a.V6? && a.octets[..12] == [0, 0, 0, 0, 0, 0, 0, 0, 0, 0, 255, 255]
    ensures a.Is4In6() ==> |HopOctets(a)| == 4 && a.Unmap() == V4(HopOctets(a))
    ensures !a.Is4In6() ==> HopOctets(a) == a.Slice() && a.Unmap() == a
  {
    if a.Is4In6() {
      assert forall i | 0 <= i < 12 :: a.octets[..12][i] == a.octets[i];
      assert a.octets[..12] == [0, 0, 0, 0, 0, 0, 0, 0, 0, 0, 255, 255];
    } else if a.V6? && a.octets[..12] == [0, 0, 0, 0, 0, 0, 0, 0, 0, 0, 255, 255] {
      forall i | 0 <= i < 12
        ensures a.octets[i] == [0, 0, 0, 0, 0, 0, 0, 0, 0, 0, 255, 255][i]
      {
        assert a.octets[..12][i] == a.octets[i];
      }
      assert false;
    }
  }

  lemma SlackMeans(routes: map<RouteKey, Route>, order: seq<RouteKey>, sel: RouteKey, slack: nat, k: RouteKey)
    requires Enumerates(order, routes.Keys) && sel in routes
    ensures Eligible(routes, sel, BestMetric(routes, order, routes[sel].metric) + slack, k) <==> WithinSlack(routes, sel, slack, k)
  {
    BestMetricIsMinimum(routes, order, routes[sel].metric);
    hide BestMetric;
  }

  /** The routes exported with a learnt selection: it comes first, then feasible finite routes within the slack, better ones first,
      no two one way, at most as many as configured; and if there is room left, every such route or another one that way. */
  lemma ExportMeans(routes: map<RouteKey, Route>, order: seq<RouteKey>, sel: RouteKey, maxPaths: int, slack: nat,
                    out: seq<RouteKey>)
    requires Enumerates(order, routes.Keys) && sel in routes && routes[sel].neighbour.Some?
    requires forall k | k in routes :: routes[k].nextHop.Valid() && |routes[k].rid| == 8
    requires out == ExportCandidates(routes, order, Some(sel), maxPaths, slack)
    ensures 1 <= |out| && (|out| == 1 || |out| <= maxPaths) && out[0] == sel
    ensures forall i | 1 <= i < |out| :: WithinSlack(routes, sel, slack, out[i])
    ensures forall i, j | 1 <= i < j < |out| :: !Outranks(routes[out[j]], routes[out[i]])
    ensures forall i, j | 0 <= i < j < |out| ::
              out[i] in routes && out[j] in routes && out[i] != out[j] && !OneWay(routes[out[i]], routes[out[j]])
    ensures |out| < maxPaths ==>
              forall k | WithinSlack(routes, sel, slack, k) && k !in out ::
                exists c :: c in out && c in routes && OneWay(routes[c], routes[k])
  {
    var limit := BestMetric(routes, order, routes[sel].metric) + slack;
    ExportSetIsSound(routes, order, sel, maxPaths, slack, limit, out);
    forall k
      ensures Eligible(routes, sel, limit, k) <==> WithinSlack(routes, sel, slack, k)
    {
      SlackMeans(routes, order, sel, slack, k);
    }
    forall a, b | a in routes && b in routes
      ensures RouteLess(routes[a], routes[b]) <==> Outranks(routes[a], routes[b])
      ensures SameForwardingPath(routes[a], routes[b]) <==> OneWay(routes[a], routes[b])
    {
      RouteLessMeans(routes[a], routes[b]);
      HopMeans(routes[a].nextHop, routes[b].nextHop);
    }
    hide RouteLess, Outranks, SameForwardingPath, OneWay, BestMetric, Eligible, WithinSlack, ExportCandidates;
  }
}
