/** The state of one Babel speaker and what each of its operations does to it.

    Routes, source entries and selections are values held in maps under the keys the speaker uses;
    a *Route pointer is the key of its table entry. */
module SpeakerState {
  import opened Lists
  import opened Net
  import opened BabelTypes

  datatype Neighbour = Neighbour(address: Addr, intf: nat)

  /** Path metrics carried by an update; opaque to routing, but part of the change fingerprint. */
  datatype Path = Path(bottleneck: nat, rtt: int, jitter: int, confidence: nat)

  /** A local route has no neighbour. */
  datatype Route = Route(
    prefix: Prefix, rid: RouterId, neighbour: Option<Neighbour>,
    advertised: Metric, metric: Metric, smoothed: Metric, seqno: SeqNo, nextHop: Addr,
    feasible: bool, selected: bool, expiry: Option<nat>, expired: bool, path: Path)
  {
    predicate Local() { neighbour.None? }

    /** Route.key */
    function Key(): RouteKey { RouteKey(prefix, if Local() then NoAddr else neighbour.value.address) }
  }

  datatype RouteKey = RouteKey(prefix: Prefix, neighbour: Addr)
  datatype SourceKey = SourceKey(prefix: Prefix, rid: RouterId)
  datatype Source = Source(distance: Distance, gc: nat)

  /** One entry of an exported fingerprint; the empty fingerprint is the empty string. */
  datatype Export = Export(prefix: Prefix, nextHop: Addr, intf: Option<nat>, metric: Metric, path: Path)
  type Print = seq<Export>

  datatype Config = Config(self: RouterId, maxPaths: int, slack: nat, penalty: real, routeExpiry: nat, sourceGC: nat)

  datatype State = State(
    cfg: Config,
    routes: map<RouteKey, Route>,
    sources: map<SourceKey, Source>,
    selected: map<Prefix, Option<RouteKey>>,
    prints: map<Prefix, Print>,
    seqno: SeqNo)

  /** What one selection run reports: pointers are keys, an absent retraction is a nil pointer. */
  datatype Report = Report(changed: seq<Prefix>, updates: seq<RouteKey>, retractions: seq<Option<RouteKey>>)

  const NO_REPORT := Report([], [], [])

  function Lookup<K, V>(m: map<K, V>, k: K, default: V): V { if k in m then m[k] else default }

  function Prefixes(routes: map<RouteKey, Route>): set<Prefix> { set k | k in routes :: k.prefix }

  /** RouteTable.ForPrefix */
  function ForPrefix(routes: map<RouteKey, Route>, p: Prefix): map<RouteKey, Route> {
    map k | k in routes && k.prefix == p :: routes[k]
  }

  // ---- Metric smoothing ----

  /** updateSmoothedMetric with alpha = 1/4, in quarter units: every value is exact in binary floating
      point, so the integer arithmetic is the program's. */
  function Smooth(smoothed: Metric, metric: Metric): Metric {
    if metric == RETRACTION then RETRACTION
    else if smoothed == 0 then metric
    else if metric == smoothed then smoothed
    else
      var quarters := 3 * smoothed + metric;
      var clamped := if quarters < 4 then 4
                     else if quarters > 4 * (RETRACTION - 1) then 4 * (RETRACTION - 1) else quarters;
      (clamped + 2) / 4
  }

  // ---- Route selection ----

  function Refresh(r: Route, cost: Metric): Route {
    if r.Local() then
      r.(metric := r.advertised, feasible := true, smoothed := Smooth(r.smoothed, r.advertised))
    else if r.expired then r.(metric := RETRACTION, smoothed := RETRACTION)
    else
      var m := LinkMetric(cost, r.advertised);
      r.(metric := m, smoothed := Smooth(r.smoothed, m))
  }

  predicate Candidate(r: Route) {
    r.Local() || (!r.expired && r.feasible && r.metric != RETRACTION)
  }

  function Candidates(routes: map<RouteKey, Route>): set<RouteKey> { set k | k in routes && Candidate(routes[k]) }

  predicate RouteLess(a: Route, b: Route) {
    if a.metric != b.metric then a.metric < b.metric
    else if AddrLess(a.nextHop, b.nextHop) then true
    else if AddrLess(b.nextHop, a.nextHop) then false
    else Value(a.rid) < Value(b.rid)
  }

  ghost predicate Minimal(routes: map<RouteKey, Route>, keys: set<RouteKey>, best: RouteKey) {
    && best in keys && best in routes
    && forall k | k in keys && k in routes :: !RouteLess(routes[k], routes[best])
  }

  /** The hysteresis of RFC 8966, Appendix A.3: keep prev unless best beats it twice. */
  function Hysteresis(routes: map<RouteKey, Route>, cands: set<RouteKey>, prev: Option<RouteKey>, best: RouteKey): RouteKey
    requires cands <= routes.Keys && best in cands
  {
    if prev.Some? && prev.value in cands && prev.value != best
       && !(routes[best].metric < routes[prev.value].metric && routes[best].smoothed < routes[prev.value].smoothed)
    then prev.value
    else best
  }

  /** sel is a choice the selection may make among the routes of one prefix; the iteration order of
      the table decides between candidates that RouteLess does not separate. */
  ghost predicate Chosen(routes: map<RouteKey, Route>, prev: Option<RouteKey>, sel: Option<RouteKey>) {
    var cands := Candidates(routes);
    if cands == {} then sel == None
    else exists best :: Minimal(routes, cands, best) && sel == Some(Hysteresis(routes, cands, prev, best))
  }

  // ---- The multipath export set ----

  predicate SameForwardingPath(a: Route, b: Route) {
    && a.neighbour.Some? && b.neighbour.Some?
    && a.neighbour.value.intf == b.neighbour.value.intf
    && a.nextHop.Unmap() == b.nextHop.Unmap()
  }

  predicate Usable(r: Route) { r.feasible && r.metric != RETRACTION }

  /** The smallest metric among sel and the usable routes of the iteration order. */
  function BestMetric(routes: map<RouteKey, Route>, order: seq<RouteKey>, start: Metric): (m: Metric)
    requires forall k | k in order :: k in routes
    ensures m <= start
  {
    if order == [] then start
    else
      var rest := BestMetric(routes, order[..|order| - 1], start);
      var r := routes[order[|order| - 1]];
      if Usable(r) && r.metric < rest then r.metric else rest
  }

  /** Candidates in table order: the selected route, then every usable route within slack whose
      forwarding path is not represented yet. */
  function Collect(routes: map<RouteKey, Route>, order: seq<RouteKey>, sel: RouteKey, limit: int): (out: seq<RouteKey>)
    requires sel in routes && forall k | k in order :: k in routes
    ensures |out| > 0 && out[0] == sel
    ensures forall k | k in out :: k in routes
  {
    if order == [] then [sel]
    else
      var got := Collect(routes, order[..|order| - 1], sel, limit);
      var k := order[|order| - 1];
      var r := routes[k];
      if k == sel || !Usable(r) || (exists c | c in got :: SameForwardingPath(routes[c], r)) || r.metric > limit
      then got
      else got + [k]
  }

  /** RouteLess on the keys of a table. */
  function Order(routes: map<RouteKey, Route>): (RouteKey, RouteKey) -> bool {
    (a, b) => a in routes && b in routes && RouteLess(routes[a], routes[b])
  }

  /** exportCandidatesLocked, for one iteration order of the routes of the prefix. */
  function ExportCandidates(routes: map<RouteKey, Route>, order: seq<RouteKey>, sel: Option<RouteKey>,
                            maxPaths: int, slack: nat): (out: seq<RouteKey>)
    requires sel.Some? ==> sel.value in routes
    requires forall k | k in order :: k in routes
    ensures forall k | k in out :: k in routes
  {
    if sel.None? then []
    else if routes[sel.value].Local() then [sel.value]
    else
      var best := BestMetric(routes, order, routes[sel.value].metric);
      Finish(routes, Collect(routes, order, sel.value, best + slack), PathLimit(maxPaths))
  }

  /** Sort everything behind the first entry and keep the first `limit` entries. */
  function Finish(routes: map<RouteKey, Route>, got: seq<RouteKey>, limit: nat): (out: seq<RouteKey>)
    requires |got| > 0 && forall k | k in got :: k in routes
    ensures forall k | k in out :: k in routes
  {
    Reordered(SortStable(Order(routes), got[1..]), got[1..]);
    assert forall k | k in [got[0]] + SortStable(Order(routes), got[1..]) :: k in got;
    Truncate([got[0]] + SortStable(Order(routes), got[1..]), limit)
  }

  function PathLimit(maxPaths: int): (limit: nat)
    ensures limit >= 1
  {
    if maxPaths < 1 then 1 else maxPaths
  }

  function Truncate<T>(s: seq<T>, limit: nat): (r: seq<T>)
    ensures r <= s && |r| <= limit
  {
    if |s| > limit then s[..limit] else s
  }

  function ExportOf(r: Route): Export {
    Export(r.prefix, r.nextHop, if r.Local() then None else Some(r.neighbour.value.intf), r.metric, r.path)
  }

  function PrintOf(routes: map<RouteKey, Route>, keys: seq<RouteKey>): Print
    requires forall k | k in keys :: k in routes
  {
    seq(|keys|, i requires 0 <= i < |keys| => ExportOf(routes[keys[i]]))
  }

  ghost predicate Enumerates<T(!new)>(order: seq<T>, items: set<T>) {
    && (forall k :: k in order <==> k in items)
    && (forall i, j | 0 <= i < j < |order| :: order[i] != order[j])
  }

  /** fp is the fingerprint of a prefix with these routes, for some iteration order of them. */
  ghost predicate Prints(cfg: Config, routes: map<RouteKey, Route>, sel: Option<RouteKey>, fp: Print) {
    && (sel.Some? ==> sel.value in routes)
    && exists order :: Enumerates(order, routes.Keys)
         && fp == PrintOf(routes, ExportCandidates(routes, order, sel, cfg.maxPaths, cfg.slack))
  }

  /** Every stored fingerprint is that of the selection next to it. */
  ghost predicate Printed(s: State) {
    && s.prints.Keys == s.selected.Keys
    && forall p | p in s.selected :: Prints(s.cfg, ForPrefix(s.routes, p), s.selected[p], s.prints[p])
  }

  // ---- One selection run ----

  function Reselect(r: Route, cost: Metric, sel: Option<RouteKey>): Route {
    Refresh(r, cost).(selected := sel == Some(r.Key()))
  }

  function Prior(selected: map<Prefix, Option<RouteKey>>, p: Prefix): Option<RouteKey> { Lookup(selected, p, None) }

  /** Metrics are recomputed and the flags follow the selection; nothing else in the table changes. */
  ghost predicate Reselected(before: map<RouteKey, Route>, costs: RouteKey -> Metric,
                             selected: map<Prefix, Option<RouteKey>>, after: map<RouteKey, Route>) {
    && after.Keys == before.Keys
    && forall k | k in before :: after[k] == Reselect(before[k], costs(k), Prior(selected, k.prefix))
  }

  ghost predicate AllChosen(pre: State, post: State) {
    forall p | p in post.selected ::
      Chosen(ForPrefix(post.routes, p), Prior(pre.selected, p), post.selected[p])
  }

  /** runSelectionLocked, with the link cost of each route as an input. */
  ghost predicate SelectionStep(pre: State, costs: RouteKey -> Metric, post: State, rep: Report) {
    && post == pre.(routes := post.routes, selected := post.selected, prints := post.prints)
    && post.selected.Keys == Prefixes(pre.routes)
    && Reselected(pre.routes, costs, post.selected, post.routes)
    && AllChosen(pre, post)
    && Printed(post)
    && Reports(pre, post, rep)
  }

  predicate Changed(pre: State, post: State, p: Prefix) {
    if p in post.selected then p in post.prints && Lookup(pre.prints, p, []) != post.prints[p]
    else p in pre.selected
  }

  /** The change report: which prefixes it names, and with which pointers. */
  ghost predicate Reports(pre: State, post: State, rep: Report) {
    && (forall p :: p in rep.changed <==> Changed(pre, post, p))
    && (forall k :: k in rep.updates <==>
          Changed(pre, post, k.prefix) && k.prefix in post.selected && post.selected[k.prefix] == Some(k))
    && (forall k :: Some(k) in rep.retractions <==> exists p :: Retracts(pre, post, p, Some(k)))
    && (None in rep.retractions <==> exists p :: Retracts(pre, post, p, None))
  }

  /** Prefix p puts the pointer prev into the retractions. */
  ghost predicate Retracts(pre: State, post: State, p: Prefix, prev: Option<RouteKey>) {
    && p in pre.selected && pre.selected[p] == prev
    && if p in post.selected then Changed(pre, post, p) && post.selected[p].None? && prev.Some?
       else true
  }

  // ---- What the other operations do before they select ----

  /** Masking and 4-in-6 unwrapping of a received prefix. */
  function Normalize(p: Prefix): Prefix {
    var m := Masked(p);
    if m.addr.Is4In6() then PrefixFrom(m.addr.Unmap(), m.bits) else m
  }

  /** A prefix the speaker stores as it is. */
  predicate Native(p: Prefix) { Masked(p) == p && !p.addr.Is4In6() }

  lemma NativeIsNormal(p: Prefix)
    requires Native(p)
    ensures Normalize(p) == p
  {
  }

  datatype Update = Update(prefix: Prefix, rid: RouterId, seqno: SeqNo, metric: Metric, nextHop: Addr)

  predicate UpdateFeasible(s: State, key: SourceKey, upd: Update) {
    upd.metric == RETRACTION || key !in s.sources || Feasible(s.sources[key].distance, upd.seqno, upd.metric)
  }

  /** onUpdateReceived up to the selection; None when the update is ignored. `path` is the outcome of
      applyUpdatePathMetrics. */
  function Acquire(s: State, n: Neighbour, upd: Update, path: Path, now: nat): Option<State> {
    var p := Normalize(upd.prefix);
    if upd.rid == UNSPECIFIED_ID then None
    else
      var feasible := UpdateFeasible(s, SourceKey(p, upd.rid), upd);
      var k := RouteKey(p, n.address);
      if k !in s.routes then
        if !feasible || upd.metric == RETRACTION then None
        else
          var hop := if upd.nextHop.NoAddr? then n.address else upd.nextHop;
          Some(s.(routes := s.routes[k := Route(p, upd.rid, Some(n), upd.metric, 0, 0, upd.seqno, hop, true, false,
                                                Some(now + s.cfg.routeExpiry), false, path)]))
      else
        var r := s.routes[k];
        if r.selected && !feasible && r.rid == upd.rid then None
        else
          var r' := r.(rid := upd.rid, seqno := upd.seqno, advertised := upd.metric, feasible := feasible,
                       expired := false, nextHop := if upd.nextHop.NoAddr? then r.nextHop else upd.nextHop,
                       path := path, expiry := Some(now + s.cfg.routeExpiry));
          Some(s.(routes := s.routes[k := r']))
  }

  /** Advertise up to the selection; None when the call changes nothing. */
  function AdvertiseTable(s: State, prefix: Prefix, metric: Metric): Option<State> {
    var p := Masked(prefix);
    var k := RouteKey(p, NoAddr);
    var next: SeqNo := (s.seqno + 1) % 0x1_0000;
    if k in s.routes then
      if s.routes[k].advertised == metric && s.routes[k].seqno == s.seqno then None
      else Some(s.(seqno := next, routes := s.routes[k := s.routes[k].(advertised := metric, seqno := next, expiry := None)]))
    else
      Some(s.(seqno := next,
              routes := s.routes[k := Route(p, s.cfg.self, None, metric, metric, metric, next, NoAddr, true, false,
                                            None, false, Path(0, 0, -1, 0))]))
  }

  /** Withdraw up to the selection. */
  function WithdrawTable(s: State, prefix: Prefix): Option<State> {
    var k := RouteKey(Masked(prefix), NoAddr);
    if k in s.routes then Some(s.(routes := s.routes - {k})) else None
  }

  function RemoveNeighbourTable(s: State, n: Neighbour): State {
    s.(routes := map k | k in s.routes && s.routes[k].neighbour != Some(n) :: s.routes[k])
  }

  /** The hold time of a learnt route has passed. */
  predicate Due(r: Route, now: nat) { !r.Local() && r.expiry.Some? && now >= r.expiry.value }

  function Expire(r: Route, now: nat, hold: nat): Route {
    if Due(r, now) then r.(metric := RETRACTION, expired := true, expiry := Some(now + hold)) else r
  }

  /** The route table after the routes listed in `done` were swept. */
  function SweptRoutes(routes: map<RouteKey, Route>, done: seq<RouteKey>, now: nat, hold: nat): map<RouteKey, Route> {
    map k | k in routes && !(k in done && Due(routes[k], now) && routes[k].metric == RETRACTION)
          :: if k in done then Expire(routes[k], now, hold) else routes[k]
  }

  /** sweep up to the selection. */
  function SweepTable(s: State, now: nat): State {
    s.(routes := map k | k in s.routes && !(Due(s.routes[k], now) && s.routes[k].metric == RETRACTION)
                      :: Expire(s.routes[k], now, s.cfg.routeExpiry),
       sources := map k | k in s.sources && !(now > s.sources[k].gc) :: s.sources[k])
  }

  /** sourceFeasibilityLocked: the source table entry before a finite update is sent. */
  function SentFinite(s: State, key: SourceKey, seqno: SeqNo, metric: int, now: nat): State {
    var d := if key in s.sources then Tighten(s.sources[key].distance, seqno, metric) else Distance(seqno, metric);
    s.(sources := s.sources[key := Source(d, now + s.cfg.sourceGC)])
  }

  /** The update encodeRoutes writes for a route, if any; the next hop is the sender's own address. */
  function Encoded(s: State, r: Route, hop: Addr): Option<Update> {
    if r.Local() then Some(Update(r.prefix, s.cfg.self, r.seqno, r.advertised, hop))
    else if r.metric == RETRACTION then None
    else Some(Update(r.prefix, r.rid, r.seqno, r.metric, hop))
  }

  /** encodeRoutes for one route. */
  function EncodeTable(s: State, r: Route, now: nat): State {
    var u := Encoded(s, r, NoAddr);
    if u.None? then s
    else SentFinite(s, SourceKey(r.prefix, u.value.rid), u.value.seqno, u.value.metric, now)
  }

  /** encodeRoutes for a list of routes. */
  function EncodeAll(s: State, rs: seq<Route>, now: nat): State {
    if rs == [] then s else EncodeTable(EncodeAll(s, rs[..|rs| - 1], now), rs[|rs| - 1], now)
  }

  /** handleSeqnoRequest: whether the selected route is sent in reply, and the state afterwards. */
  function AnswerSeqnoRequest(s: State, prefix: Prefix, rid: RouterId, seqno: SeqNo): (Option<RouteKey>, State) {
    var sel := Prior(s.selected, Masked(prefix));
    if sel.None? || sel.value !in s.routes || s.routes[sel.value].metric == RETRACTION then (None, s)
    else
      var r := s.routes[sel.value];
      if r.rid != rid || !SeqnoLess(r.seqno, seqno) then (sel, s)
      else if r.rid == s.cfg.self then
        var next: SeqNo := (s.seqno + 1) % 0x1_0000;
        (sel, s.(seqno := next, routes := s.routes[sel.value := r.(seqno := next)]))
      else (None, s)
  }

  predicate LeadsOn(r: Route, requesting: Neighbour) { r.neighbour.Some? && r.neighbour.value != requesting }

  /** Where a seqno request may be forwarded (section 3.8.1.2 of RFC 8966): along a feasible route first, any other one
      otherwise, never back to the requesting neighbour. */
  ghost predicate Onward(routes: map<RouteKey, Route>, requesting: Neighbour, to: Option<Neighbour>) {
    if exists k :: k in routes && Usable(routes[k]) && LeadsOn(routes[k], requesting) then
      to.Some? && exists k :: k in routes && Usable(routes[k]) && LeadsOn(routes[k], requesting) && routes[k].neighbour == to
    else if exists k :: k in routes && LeadsOn(routes[k], requesting) then
      to.Some? && exists k :: k in routes && LeadsOn(routes[k], requesting) && routes[k].neighbour == to
    else to == None
  }

  // ---- Operations ----

  /** The operations of a speaker; costs and times are inputs of the step. */
  datatype Op =
    | Receive(from: Neighbour, upd: Update, path: Path, now: nat)
    | Advertise(prefix: Prefix, metric: Metric)
    | Withdraw(prefix: Prefix)
    | CostChanged
    | NeighbourRemoved(gone: Neighbour)
    | Sweep(now: nat)
    | Encode(route: Route, now: nat)
    | SeqnoRequest(prefix: Prefix, rid: RouterId, seqno: SeqNo)
    | EcmpParams(maxPaths: int, slack: nat, penalty: real)

  /** The table change of an operation, and whether a selection follows it. */
  datatype TableChange = Quiet(state: State) | Selecting(state: State)

  function FromOption(s: State, t: Option<State>): TableChange {
    if t.None? then Quiet(s) else Selecting(t.value)
  }

  function Table(s: State, op: Op): TableChange {
    match op
    case Receive(n, upd, path, now) => FromOption(s, Acquire(s, n, upd, path, now))
    case Advertise(p, m) => if p.Valid() then FromOption(s, AdvertiseTable(s, p, m)) else Quiet(s)
    case Withdraw(p) => if p.Valid() then FromOption(s, WithdrawTable(s, p)) else Quiet(s)
    case CostChanged => Selecting(s)
    case NeighbourRemoved(n) => Selecting(RemoveNeighbourTable(s, n))
    case Sweep(now) => Selecting(SweepTable(s, now))
    case Encode(r, now) => Quiet(EncodeTable(s, r, now))
    case SeqnoRequest(p, rid, q) => Quiet(AnswerSeqnoRequest(s, p, rid, q).1)
    case EcmpParams(m, slack, penalty) =>
      if s.cfg.maxPaths == m && s.cfg.slack == slack && s.cfg.penalty == penalty then Quiet(s)
      else Selecting(s.(cfg := s.cfg.(maxPaths := m, slack := slack, penalty := penalty)))
  }

  /** One operation of a speaker. */
  ghost predicate OpStep(s: State, op: Op, costs: RouteKey -> Metric, s': State, rep: Report) {
    match Table(s, op)
    case Quiet(t) => s' == t && rep == NO_REPORT
    case Selecting(t) => SelectionStep(t, costs, s', rep)
  }

  // ---- The invariant between operations ----

  ghost predicate KeysMatch(routes: map<RouteKey, Route>) { forall k | k in routes :: routes[k].Key() == k }

  ghost predicate FlagsAgree(s: State) {
    forall k | k in s.routes ::
      s.routes[k].selected <==> Prior(s.selected, k.prefix) == Some(k)
  }

  ghost predicate SelectionValid(s: State, p: Prefix)
    requires p in s.selected && s.selected[p].Some?
  {
    var k := s.selected[p].value;
    k in s.routes && k.prefix == p && Candidate(s.routes[k])
  }

  ghost predicate Consistent(s: State) {
    && KeysMatch(s.routes)
    && s.selected.Keys == Prefixes(s.routes)
    && Printed(s)
    && (forall p | p in s.selected && s.selected[p].Some? :: SelectionValid(s, p))
    && FlagsAgree(s)
  }

  /** What holds inside an operation, after its table change and before its selection. */
  ghost predicate Keyed(s: State) { KeysMatch(s.routes) && s.prints.Keys == s.selected.Keys }
}
