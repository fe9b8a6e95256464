/** Runs of a speaker that leave the advertisements of one prefix as they are: which operations those are, and what the
    convergence of selection means for them. */
module Steady {
  import opened Net
  import opened BabelTypes
  import opened SpeakerState
  import Selection
  import opened SpeakerProperties
  import opened Convergence

  // ---- Operations that only renew ----

  ghost predicate RenewedTable(a: RouteTable, b: RouteTable) {
    b.Keys == a.Keys && forall k | k in a :: b[k] == Renewed(a[k], b[k])
  }

  /** The table change does no more to the routes of p than repeated advertisements do. */
  ghost predicate OnlyRenews(pre: State, post: State, p: Prefix) {
    RenewedTable(ForPrefix(pre.routes, p), ForPrefix(post.routes, p))
  }

  /** The update says what the route from this neighbour says already, and is as feasible as it. */
  predicate Repeats(s: State, n: Neighbour, upd: Update) {
    var p := Normalize(upd.prefix);
    var k := RouteKey(p, n.address);
    && k in s.routes
    && var r := s.routes[k];
       && r.rid == upd.rid && r.advertised == upd.metric && (upd.nextHop.NoAddr? || r.nextHop == upd.nextHop) && !r.expired
       && r.feasible == UpdateFeasible(s, SourceKey(p, upd.rid), upd)
  }

  /** What can be seen before the operation: it repeats an advertisement of p, or does not concern p. */
  predicate Undisturbed(s: State, op: Op, p: Prefix) {
    match op
    case Receive(n, upd, path, now) => Normalize(upd.prefix) != p || Acquire(s, n, upd, path, now).None? || Repeats(s, n, upd)
    case Advertise(q, m) =>
      !q.Valid() || Masked(q) != p || (RouteKey(p, NoAddr) in s.routes && s.routes[RouteKey(p, NoAddr)].advertised == m)
    case Withdraw(q) => !q.Valid() || Masked(q) != p || RouteKey(p, NoAddr) !in s.routes
    case NeighbourRemoved(n) => forall k | k in s.routes && k.prefix == p :: s.routes[k].neighbour != Some(n)
    case Sweep(now) => forall k | k in s.routes && k.prefix == p :: !Due(s.routes[k], now)
    case _ => true
  }

  lemma ChangeAt(s: State, t: State, k: RouteKey, p: Prefix)
    requires k in s.routes && k in t.routes && t.routes == s.routes[k := t.routes[k]]
    ensures OnlyRenews(s, t, p) <==> k.prefix != p || t.routes[k] == Renewed(s.routes[k], t.routes[k])
  {
    assert ForPrefix(s.routes, p).Keys == ForPrefix(t.routes, p).Keys;
    if k.prefix == p {
      assert k in ForPrefix(s.routes, p);
    }
  }

  lemma SameTable(s: State, t: State, p: Prefix)
    requires ForPrefix(t.routes, p) == ForPrefix(s.routes, p)
    ensures OnlyRenews(s, t, p)
  {
  }

  lemma ReceiveOnlyRenews(s: State, n: Neighbour, upd: Update, path: Path, now: nat, t: State, p: Prefix)
    requires Acquire(s, n, upd, path, now) == Some(t)
    ensures OnlyRenews(s, t, p) <==> Normalize(upd.prefix) != p || Repeats(s, n, upd)
  {
    hide Normalize, UpdateFeasible, OnlyRenews;
    var k := RouteKey(Normalize(upd.prefix), n.address);
    assert t.routes == s.routes[k := t.routes[k]];
    if k in s.routes {
      ChangeAt(s, t, k, p);
    } else {
      NewRoute(s, t, k, p);
    }
  }

  lemma NewRoute(s: State, t: State, k: RouteKey, p: Prefix)
    requires k !in s.routes && k in t.routes && t.routes == s.routes[k := t.routes[k]]
    ensures OnlyRenews(s, t, p) <==> k.prefix != p
  {
    if k.prefix == p {
      assert k in ForPrefix(t.routes, p) && k !in ForPrefix(s.routes, p);
    } else {
      assert ForPrefix(t.routes, p) == ForPrefix(s.routes, p);
    }
  }

  lemma AdvertiseOnlyRenews(s: State, q: Prefix, m: Metric, t: State, p: Prefix)
    requires AdvertiseTable(s, q, m) == Some(t)
    ensures OnlyRenews(s, t, p) <==>
            Masked(q) != p || (RouteKey(p, NoAddr) in s.routes && s.routes[RouteKey(p, NoAddr)].advertised == m)
  {
    hide Masked, OnlyRenews;
    var k := RouteKey(Masked(q), NoAddr);
    assert t.routes == s.routes[k := t.routes[k]];
    if k in s.routes {
      ChangeAt(s, t, k, p);
    } else {
      NewRoute(s, t, k, p);
    }
  }

  lemma WithdrawOnlyRenews(s: State, q: Prefix, t: State, p: Prefix)
    requires WithdrawTable(s, q) == Some(t)
    ensures OnlyRenews(s, t, p) <==> Masked(q) != p || RouteKey(p, NoAddr) !in s.routes
  {
    hide Masked;
    var k := RouteKey(Masked(q), NoAddr);
    if k.prefix == p {
      assert k in ForPrefix(s.routes, p) && k !in ForPrefix(t.routes, p);
    } else {
      assert ForPrefix(t.routes, p) == ForPrefix(s.routes, p);
    }
  }

  lemma RemovalOnlyRenews(s: State, n: Neighbour, p: Prefix)
    ensures OnlyRenews(s, RemoveNeighbourTable(s, n), p) <==>
            forall k | k in s.routes && k.prefix == p :: s.routes[k].neighbour != Some(n)
  {
    var t := RemoveNeighbourTable(s, n);
    if k :| k in s.routes && k.prefix == p && s.routes[k].neighbour == Some(n) {
      assert k in ForPrefix(s.routes, p) && k !in ForPrefix(t.routes, p);
    } else {
      assert ForPrefix(t.routes, p) == ForPrefix(s.routes, p);
    }
  }

  lemma SweepOnlyRenews(s: State, now: nat, p: Prefix)
    ensures OnlyRenews(s, SweepTable(s, now), p) <==> forall k | k in s.routes && k.prefix == p :: !Due(s.routes[k], now)
  {
    hide Due;
    var t := SweepTable(s, now);
    if k :| k in s.routes && k.prefix == p && Due(s.routes[k], now) {
      var a, b := ForPrefix(s.routes, p), ForPrefix(t.routes, p);
      assert k in a;
      if k in b {
        assert b[k] == Expire(s.routes[k], now, s.cfg.routeExpiry) && s.routes[k].metric != RETRACTION;
        assert b[k] != Renewed(a[k], b[k]);
      }
    } else {
      assert ForPrefix(t.routes, p) == ForPrefix(s.routes, p);
    }
  }

  lemma RequestOnlyRenews(s: State, q: Prefix, rid: RouterId, n: SeqNo, p: Prefix)
    ensures OnlyRenews(s, AnswerSeqnoRequest(s, q, rid, n).1, p)
  {
    hide Masked, OnlyRenews;
    var t := AnswerSeqnoRequest(s, q, rid, n).1;
    var sel := Prior(s.selected, Masked(q));
    if t != s {
      ChangeAt(s, t, sel.value, p);
    } else {
      SameTable(s, t, p);
    }
  }

  /** Exactly these operations do no more to the routes of p than repeated advertisements do. */
  lemma UndisturbedIff(s: State, op: Op, p: Prefix)
    ensures Undisturbed(s, op, p) <==> OnlyRenews(s, Table(s, op).state, p)
  {
    hide OnlyRenews, Masked, Repeats, Acquire, AdvertiseTable, WithdrawTable, SweepTable, AnswerSeqnoRequest, EncodeTable,
         Normalize, RemoveNeighbourTable, Due;
    var t := Table(s, op).state;
    match op
    case Receive(n, upd, path, now) =>
      if Acquire(s, n, upd, path, now).Some? {
        ReceiveOnlyRenews(s, n, upd, path, now, t, p);
      } else {
        SameTable(s, t, p);
      }
    case Advertise(q, m) =>
      AdvertiseUndisturbed(s, q, m, p);
    case Withdraw(q) =>
      WithdrawUndisturbed(s, q, p);
    case NeighbourRemoved(n) =>
      RemovalOnlyRenews(s, n, p);
    case Sweep(now) =>
      SweepOnlyRenews(s, now, p);
    case SeqnoRequest(q, rid, n) =>
      RequestOnlyRenews(s, q, rid, n, p);
    case Encode(r, now) =>
      EncodeOnlyRenews(s, r, now, p);
    case _ =>
      SameTable(s, t, p);
  }

  lemma AdvertiseUndisturbed(s: State, q: Prefix, m: Metric, p: Prefix)
    ensures Undisturbed(s, Advertise(q, m), p) <==> OnlyRenews(s, Table(s, Advertise(q, m)).state, p)
  {
    hide OnlyRenews, Masked;
    var t := AdvertiseTable(s, q, m);
    if q.Valid() && t.Some? {
      AdvertiseOnlyRenews(s, q, m, t.value, p);
    } else {
      SameTable(s, s, p);
    }
  }

  lemma WithdrawUndisturbed(s: State, q: Prefix, p: Prefix)
    ensures Undisturbed(s, Withdraw(q), p) <==> OnlyRenews(s, Table(s, Withdraw(q)).state, p)
  {
    hide OnlyRenews, Masked;
    var t := WithdrawTable(s, q);
    if q.Valid() && t.Some? {
      WithdrawOnlyRenews(s, q, t.value, p);
    } else {
      SameTable(s, s, p);
    }
  }

  lemma EncodeOnlyRenews(s: State, r: Route, now: nat, p: Prefix)
    ensures OnlyRenews(s, EncodeTable(s, r, now), p)
  {
    SameTable(s, EncodeTable(s, r, now), p);
  }

  // ---- Runs of such operations ----

  /** Every operation leaves the advertisements of p as they are, and the costs of its links stay the same. */
  ghost predicate Calm(states: seq<State>, ops: seq<Op>, costs: seq<RouteKey -> Metric>, reps: seq<Report>, p: Prefix,
                       base: RouteKey -> Metric)
  {
    && SpeakerRun(states, ops, costs, reps)
    && forall i | 0 <= i < |ops| :: CalmAt(states[i], ops[i], costs[i], p, base)
  }

  ghost predicate CalmAt(s: State, op: Op, costs: RouteKey -> Metric, p: Prefix, base: RouteKey -> Metric) {
    Undisturbed(s, op, p) && forall k: RouteKey | k.prefix == p :: costs(k) == base(k)
  }

  /** Routes and choices of a prefix, at first and after each selection. */
  datatype Record = Record(tables: seq<RouteTable>, held: seq<Option<RouteKey>>)

  function Recording(states: seq<State>, ops: seq<Op>, p: Prefix): (rec: Record)
    requires |states| == |ops| + 1
    ensures |rec.tables| == |rec.held| > 0
  {
    var n := |ops|;
    if n == 0 then Record([ForPrefix(states[0].routes, p)], [Prior(states[0].selected, p)])
    else
      var rec := Recording(states[..n], ops[..n - 1], p);
      if Table(states[n - 1], ops[n - 1]).Quiet? then rec
      else Record(rec.tables + [ForPrefix(states[n].routes, p)], rec.held + [Prior(states[n].selected, p)])
  }

  /** Since the last selection recorded, the routes of p were at most renewed, and the choice is that selection's. */
  ghost predicate UpToDate(rec: Record, s: State, p: Prefix) {
    && |rec.tables| == |rec.held| > 0
    && RenewedTable(rec.tables[|rec.tables| - 1], ForPrefix(s.routes, p)) && rec.held[|rec.held| - 1] == Prior(s.selected, p)
  }

  lemma RenewalsCompose(a: RouteTable, b: RouteTable, c: RouteTable)
    requires RenewedTable(a, b) && RenewedTable(b, c)
    ensures RenewedTable(a, c)
  {
  }

  /** A selection after renewals is one step of the prefix. */
  lemma SelectionStepsPrefix(a: RouteTable, t: State, costs: RouteKey -> Metric, base: RouteKey -> Metric, post: State, rep: Report,
                             p: Prefix)
    requires SelectionStep(t, costs, post, rep) && RenewedTable(a, ForPrefix(t.routes, p))
    requires forall k: RouteKey | k.prefix == p :: costs(k) == base(k)
    ensures PrefixStep(a, base, Prior(t.selected, p), Prior(post.selected, p), ForPrefix(post.routes, p))
  {
    hide Printed, Reports, Chosen;
    var b, sel := ForPrefix(post.routes, p), Prior(post.selected, p);
    assert Reselected(t.routes, costs, post.selected, post.routes);
    forall k | k in a
      ensures k in b && b[k] == Renewed(Reselect(a[k], base(k), sel), b[k])
    {
      assert k in ForPrefix(t.routes, p);
      ReselectRenewed(a[k], t.routes[k], base(k), sel);
    }
    forall k | k in b
      ensures k in a
    {
      assert k in ForPrefix(t.routes, p);
    }
    assert Chosen(b, Prior(t.selected, p), sel) by { ChosenByStep(t, post, p); }
  }

  lemma ReselectRenewed(a: Route, r: Route, cost: Metric, sel: Option<RouteKey>)
    requires r == Renewed(a, r)
    ensures Reselect(r, cost, sel) == Renewed(Reselect(a, cost, sel), Reselect(r, cost, sel))
  {
    hide Smooth, LinkMetric;
  }

  /** With or without routes of p. */
  lemma ChosenByStep(t: State, post: State, p: Prefix)
    requires AllChosen(t, post) && post.selected.Keys == Prefixes(t.routes) && post.routes.Keys == t.routes.Keys
    ensures Chosen(ForPrefix(post.routes, p), Prior(t.selected, p), Prior(post.selected, p))
  {
    if p !in post.selected {
      assert ForPrefix(post.routes, p) == map[] by {
        forall k | k in post.routes
          ensures k.prefix != p
        {
          assert k.prefix in Prefixes(t.routes);
        }
      }
      assert Candidates(ForPrefix(post.routes, p)) == {};
    }
  }

  lemma SteadyExtends(rec: Record, base: RouteKey -> Metric, table: RouteTable, sel: Option<RouteKey>)
    requires SteadyRun(rec.tables, rec.held, base)
    requires PrefixStep(rec.tables[|rec.tables| - 1], base, rec.held[|rec.held| - 1], sel, table)
    ensures SteadyRun(rec.tables + [table], rec.held + [sel], base)
  {
    hide PrefixStep;
    var tables, held := rec.tables + [table], rec.held + [sel];
    forall i | 1 <= i < |tables|
      ensures StepAt(tables, held, base, i)
    {
      if i < |rec.tables| {
        assert StepAt(rec.tables, rec.held, base, i);
      }
    }
  }

  lemma OperationIsRecorded(rec: Record, s: State, op: Op, costs: RouteKey -> Metric, base: RouteKey -> Metric, s': State,
                            rep: Report, p: Prefix, next: Record)
    requires SteadyRun(rec.tables, rec.held, base) && UpToDate(rec, s, p)
    requires OpStep(s, op, costs, s', rep) && CalmAt(s, op, costs, p, base)
    requires next == if Table(s, op).Quiet? then rec
                     else Record(rec.tables + [ForPrefix(s'.routes, p)], rec.held + [Prior(s'.selected, p)])
    ensures SteadyRun(next.tables, next.held, base) && UpToDate(next, s', p)
  {
    hide SteadyRun, RenewedTable, PrefixStep, SelectionStep, Table, ForPrefix, Undisturbed;
    var t := Table(s, op).state;
    UndisturbedIff(s, op, p);
    Selection.TableKeepsSelection(s, op);
    var last := rec.tables[|rec.tables| - 1];
    RenewalsCompose(last, ForPrefix(s.routes, p), ForPrefix(t.routes, p));
    if Table(s, op).Selecting? {
      SelectionStepsPrefix(last, t, costs, base, s', rep, p);
      SteadyExtends(rec, base, ForPrefix(s'.routes, p), Prior(s'.selected, p));
      ItselfRenewed(ForPrefix(s'.routes, p));
    }
  }

  lemma ItselfRenewed(a: RouteTable)
    ensures RenewedTable(a, a)
  {
  }

  /** In a calm run the selections are a steady run of the prefix, however many operations are between them. */
  lemma {:induction false} SelectionsAreSteady(states: seq<State>, ops: seq<Op>, costs: seq<RouteKey -> Metric>, reps: seq<Report>,
                                               p: Prefix, base: RouteKey -> Metric)
    requires Calm(states, ops, costs, reps, p, base)
    ensures var rec := Recording(states, ops, p);
            SteadyRun(rec.tables, rec.held, base) && UpToDate(rec, states[|ops|], p)
  {
    hide OpStep, CalmAt, SteadyRun, RenewedTable, ForPrefix, Table, UpToDate;
    var n := |ops|;
    if n == 0 {
      StartIsSteady(states, ops, p, base);
    } else {
      SelectionsAreSteady(states[..n], ops[..n - 1], costs[..n - 1], reps[..n - 1], p, base);
      assert CalmAt(states[n - 1], ops[n - 1], costs[n - 1], p, base);
      assert OpStep(states[n - 1], ops[n - 1], costs[n - 1], states[n], reps[n - 1]);
      OperationIsRecorded(Recording(states[..n], ops[..n - 1], p), states[n - 1], ops[n - 1], costs[n - 1], base, states[n],
                          reps[n - 1], p, Recording(states, ops, p));
    }
  }

  lemma StartIsSteady(states: seq<State>, ops: seq<Op>, p: Prefix, base: RouteKey -> Metric)
    requires |states| == 1 && ops == []
    ensures var rec := Recording(states, ops, p); SteadyRun(rec.tables, rec.held, base) && UpToDate(rec, states[0], p)
  {
    ItselfRenewed(ForPrefix(states[0].routes, p));
  }

  lemma MinimalIsRenewed(a: RouteTable, b: RouteTable, best: RouteKey)
    requires RenewedTable(a, b) && Minimal(a, Candidates(a), best)
    ensures Candidates(a) == Candidates(b) && Minimal(b, Candidates(b), best) && b[best].metric == a[best].metric
  {
    assert Candidates(a) == Candidates(b);
  }

  /** In a calm run a route held after the first selection that exceeds the minimum by 4 or more has given way to one of
      minimum metric once SETTLED more selections have run, and at every later moment. */
  lemma CalmRunLeavesWorseRoute(states: seq<State>, ops: seq<Op>, costs: seq<RouteKey -> Metric>, reps: seq<Report>, p: Prefix,
                                base: RouteKey -> Metric, rec: Record, k: RouteKey, best: RouteKey)
    requires Calm(states, ops, costs, reps, p, base) && rec == Recording(states, ops, p)
    requires |rec.tables| > SETTLED + 1 && rec.held[1] == Some(k) && k in rec.tables[1]
    requires Minimal(rec.tables[1], Candidates(rec.tables[1]), best)
    requires rec.tables[1][best].metric + 4 <= rec.tables[1][k].metric < RETRACTION
    ensures var now, sel := ForPrefix(states[|ops|].routes, p), Prior(states[|ops|].selected, p);
            && sel.Some? && Minimal(now, Candidates(now), sel.value)
            && now[sel.value].metric == rec.tables[1][best].metric
  {
    hide CalmAt, OpStep, SteadyRun, RenewedTable, Recording, Minimal, Candidate, ForPrefix, Prior;
    SelectionsAreSteady(states, ops, costs, reps, p, base);
    var last := |rec.tables| - 1;
    HeldIsCandidate(rec, base, k);
    WorseRouteIsLeft(rec.tables, rec.held, base, last, k, best);
    var sel := rec.held[last].value;
    MinimalAtEnd(rec, base, last, sel);
    MinimalIsRenewed(rec.tables[last], ForPrefix(states[|ops|].routes, p), sel);
  }

  lemma HeldIsCandidate(rec: Record, base: RouteKey -> Metric, k: RouteKey)
    requires |rec.tables| == |rec.held| > 1 && SteadyRun(rec.tables, rec.held, base) && rec.held[1] == Some(k)
    ensures k in Candidates(rec.tables[1])
  {
    assert StepAt(rec.tables, rec.held, base, 1);
    Selection.ChosenIsCandidate(rec.tables[1], rec.held[0], rec.held[1]);
  }

  lemma MinimalAtEnd(rec: Record, base: RouteKey -> Metric, i: nat, sel: RouteKey)
    requires |rec.tables| == |rec.held| && 1 <= i < |rec.tables| && SteadyRun(rec.tables, rec.held, base)
    requires sel in rec.tables[1] && Minimal(rec.tables[1], Candidates(rec.tables[1]), sel)
    ensures sel in rec.tables[i] && Minimal(rec.tables[i], Candidates(rec.tables[i]), sel)
    ensures rec.tables[i][sel].metric == rec.tables[1][sel].metric
  {
    MinimalIsFixed(rec.tables, rec.held, base, i, sel);
    RoutesAreFixed(rec.tables, rec.held, base, i, sel);
  }
}
