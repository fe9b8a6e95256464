/** Guarantees of one speaker: the selected route, the change report, the export set. */
module SpeakerProperties {
  import opened Net
  import opened BabelTypes
  import opened SpeakerState
  import opened Selection

  // ---- RouteLess orders the routes ----

  /** Not being greater is transitive: RouteLess compares (metric, next hop, router-id) lexicographically. */
  lemma RouteLessIsWeakOrder(a: Route, b: Route, c: Route)
    ensures !RouteLess(a, a)
    ensures RouteLess(a, b) ==> !RouteLess(b, a)
    ensures !RouteLess(b, a) && !RouteLess(c, b) ==> !RouteLess(c, a)
  {
    AddrOrder(a.nextHop, b.nextHop, c.nextHop);
  }

  lemma AddrOrder(a: Addr, b: Addr, c: Addr)
    ensures !AddrLess(a, a) && (AddrLess(a, b) ==> !AddrLess(b, a))
    ensures !AddrLess(b, a) && !AddrLess(c, b) ==> !AddrLess(c, a)
    ensures !AddrLess(b, a) && !AddrLess(c, b) && AddrLess(a, b) ==> AddrLess(a, c)
    ensures !AddrLess(b, a) && !AddrLess(c, b) && AddrLess(b, c) ==> AddrLess(a, c)
  {
  }

  // ---- The selected route ----

  /** No candidate of the table ranks before k. */
  ghost predicate NoneLess(table: map<RouteKey, Route>, k: RouteKey)
    requires k in table
  {
    forall j | j in table && Candidate(table[j]) :: !RouteLess(table[j], table[k])
  }

  /** Some minimal candidate does not beat k in both the metric and the smoothed metric. */
  ghost predicate NotBeatenTwice(table: map<RouteKey, Route>, k: RouteKey)
    requires k in table
  {
    exists best :: best in table && Candidate(table[best]) && NoneLess(table, best)
      && !(table[best].metric < table[k].metric && table[best].smoothed < table[k].smoothed)
  }

  lemma ChoiceIsSound(table: map<RouteKey, Route>, prev: Option<RouteKey>, sel: Option<RouteKey>)
    requires Chosen(table, prev, sel)
    ensures sel.None? <==> forall k | k in table :: !Candidate(table[k])
    ensures sel.Some? ==>
              var k := sel.value;
              && k in table && Candidate(table[k])
              && (NoneLess(table, k) || (prev == Some(k) && NotBeatenTwice(table, k)))
  {
    var cands := Candidates(table);
    if sel.None? {
      forall k | k in table
        ensures !Candidate(table[k])
      {
        assert k !in cands;
      }
    } else {
      var best :| Minimal(table, cands, best) && sel == Some(Hysteresis(table, cands, prev, best));
      forall j | j in table && Candidate(table[j])
        ensures !RouteLess(table[j], table[best])
      {
        assert j in cands;
      }
      assert NoneLess(table, best);
    }
  }

  /** After every selection: the stored route is in the table, it alone carries the flag, it is local or
      feasible, unexpired and finite, and it is either minimal among the candidates or the previous
      choice, which some minimal candidate does not beat in both metrics. Nothing is selected exactly when
      no route qualifies. */
  lemma SelectedRouteIsSound(pre: State, costs: RouteKey -> Metric, post: State, rep: Report, p: Prefix)
    requires Keyed(pre) && SelectionStep(pre, costs, post, rep) && p in Prefixes(pre.routes)
    ensures p in post.selected
    ensures var table, sel := ForPrefix(post.routes, p), post.selected[p];
            && (forall j | j in table :: table[j].selected <==> sel == Some(j))
            && (sel.None? <==> forall k | k in table :: !Candidate(table[k]))
            && (sel.Some? ==>
                  var k := sel.value;
                  && k in table
                  && (table[k].Local() || (table[k].feasible && !table[k].expired && table[k].metric != RETRACTION))
                  && (NoneLess(table, k) || (Prior(pre.selected, p) == sel && NotBeatenTwice(table, k))))
  {
    ChoiceIsSound(ForPrefix(post.routes, p), Prior(pre.selected, p), post.selected[p]);
    FlagsMatch(pre, costs, post);
  }

  // ---- The change report ----

  /** The prefixes that have a selected route. */
  function Reachable(s: State): set<Prefix> { set p | p in s.selected && s.selected[p].Some? }

  /** What a consumer of the reports believes, one report later; nil pointers tell it nothing. */
  function ApplyReport(mirror: set<Prefix>, rep: Report): set<Prefix> {
    (mirror - set o | o in rep.retractions && o.Some? :: o.value.prefix) + set k | k in rep.updates :: k.prefix
  }

  lemma {:induction false} PrintIsEmptyIffUnselected(cfg: Config, routes: map<RouteKey, Route>, sel: Option<RouteKey>, fp: Print)
    requires Prints(cfg, routes, sel, fp)
    ensures fp == [] <==> sel.None?
  {
    var order :| Enumerates(order, routes.Keys) && fp == PrintOf(routes, ExportCandidates(routes, order, sel, cfg.maxPaths, cfg.slack));
  }

  lemma EmptyPrints(s: State, p: Prefix)
    requires Printed(s)
    ensures EmptyPrintMeansNone(s, p)
  {
    if p in s.selected {
      PrintIsEmptyIffUnselected(s.cfg, ForPrefix(s.routes, p), s.selected[p], s.prints[p]);
    }
  }

  /** The incremental report refines recomputation, one operation at a time. */
  lemma ReportKeepsMirror(s: State, op: Op, costs: RouteKey -> Metric, s': State, rep: Report)
    requires Consistent(s) && OpStep(s, op, costs, s', rep)
    ensures ApplyReport(Reachable(s), rep) == Reachable(s')
  {
    TableKeepsSelection(s, op);
    if Table(s, op).Selecting? {
      var t := Table(s, op).state;
      forall p
        ensures p in ApplyReport(Reachable(s), rep) <==> p in Reachable(s')
      {
        ReportKeepsPrefix(s, t, costs, s', rep, p);
      }
    }
  }

  lemma ReportKeepsPrefix(s: State, t: State, costs: RouteKey -> Metric, s': State, rep: Report, p: Prefix)
    requires Consistent(s) && t.selected == s.selected && t.prints == s.prints
    requires SelectionStep(t, costs, s', rep)
    ensures p in ApplyReport(Reachable(s), rep) <==> p in Reachable(s')
  {
    SelectedKeysCarryPrefix(s);
    EmptyPrints(s, p);
    EmptyPrints(s', p);
    if p in s'.selected && s'.selected[p].Some? {
      SelectedIsCandidate(t, costs, s', rep, p);
    }
    ReportedRetraction(t, s', rep, p);
    ReportedUpdate(t, s', rep, p);
    MirrorEntry(s, t, s', rep, p);
  }

  /** The fingerprint of p is empty exactly when p has no selected route. */
  predicate EmptyPrintMeansNone(s: State, p: Prefix) {
    && (p in s.selected <==> p in s.prints)
    && (p in s.selected ==> (s.prints[p] == [] <==> s.selected[p].None?))
  }

  lemma MirrorEntry(s: State, t: State, s': State, rep: Report, p: Prefix)
    requires t.selected == s.selected && t.prints == s.prints
    requires EmptyPrintMeansNone(s, p) && EmptyPrintMeansNone(s', p)
    requires (exists o :: o in rep.retractions && o.Some? && o.value.prefix == p) <==>
             p in t.selected && t.selected[p].Some? && Retracts(t, s', p, t.selected[p])
    requires (exists k :: k in rep.updates && k.prefix == p) <==>
             p in s'.selected && s'.selected[p].Some? && Changed(t, s', p)
    ensures p in ApplyReport(Reachable(s), rep) <==> p in Reachable(s')
  {
  }

  /** The report retracts p exactly when p had a route and has none any more. */
  lemma ReportedRetraction(pre: State, post: State, rep: Report, p: Prefix)
    requires Reports(pre, post, rep)
    requires forall q | q in pre.selected && pre.selected[q].Some? :: pre.selected[q].value.prefix == q
    ensures (exists o :: o in rep.retractions && o.Some? && o.value.prefix == p) <==>
            p in pre.selected && pre.selected[p].Some? && Retracts(pre, post, p, pre.selected[p])
  {
    if o :| o in rep.retractions && o.Some? && o.value.prefix == p {
      assert Some(o.value) in rep.retractions;
      var q :| Retracts(pre, post, q, Some(o.value));
    }
    if p in pre.selected && pre.selected[p].Some? && Retracts(pre, post, p, pre.selected[p]) {
      assert Some(pre.selected[p].value) in rep.retractions;
    }
  }

  /** The report updates p exactly when p changed and has a route. */
  lemma ReportedUpdate(pre: State, post: State, rep: Report, p: Prefix)
    requires Reports(pre, post, rep)
    requires p in post.selected && post.selected[p].Some? ==> post.selected[p].value.prefix == p
    ensures (exists k :: k in rep.updates && k.prefix == p) <==>
            p in post.selected && post.selected[p].Some? && Changed(pre, post, p)
  {
    if p in post.selected && post.selected[p].Some? && Changed(pre, post, p) {
      assert post.selected[p].value in rep.updates;
    }
  }

  lemma SelectedKeysCarryPrefix(s: State)
    requires Consistent(s)
    ensures forall p | p in s.selected && s.selected[p].Some? :: s.selected[p].value.prefix == p
  {
    forall p | p in s.selected && s.selected[p].Some?
      ensures s.selected[p].value.prefix == p
    {
      assert SelectionValid(s, p);
    }
  }

  /** A nil pointer is reported exactly when a prefix vanishes that had nothing selected. */
  lemma NilRetractions(s: State, op: Op, costs: RouteKey -> Metric, s': State, rep: Report)
    requires OpStep(s, op, costs, s', rep) && Table(s, op).Selecting?
    ensures None in rep.retractions <==> exists p :: p in s.selected && s.selected[p].None? && p !in s'.selected
  {
    TableKeepsSelection(s, op);
    NilReported(Table(s, op).state, s', rep);
  }

  lemma NilReported(pre: State, post: State, rep: Report)
    requires Reports(pre, post, rep)
    ensures None in rep.retractions <==> exists p :: p in pre.selected && pre.selected[p].None? && p !in post.selected
  {
    if p :| p in pre.selected && pre.selected[p].None? && p !in post.selected {
      assert Retracts(pre, post, p, None);
    }
  }

  /** A run of a speaker: states[i] --ops[i]--> states[i + 1], reporting reps[i]. */
  ghost predicate SpeakerRun(states: seq<State>, ops: seq<Op>, costs: seq<RouteKey -> Metric>, reps: seq<Report>) {
    && |states| == |ops| + 1 && |costs| == |reps| == |ops|
    && forall i | 0 <= i < |ops| :: OpStep(states[i], ops[i], costs[i], states[i + 1], reps[i])
  }

  function ApplyAll(mirror: set<Prefix>, reps: seq<Report>): set<Prefix> {
    if reps == [] then mirror else ApplyReport(ApplyAll(mirror, reps[..|reps| - 1]), reps[|reps| - 1])
  }

  /** Over every run the invariant holds in every state, and a mirror fed only the reports ends with
      exactly the prefixes that have a selected route. */
  lemma {:induction false} MirrorFollowsRun(states: seq<State>, ops: seq<Op>, costs: seq<RouteKey -> Metric>, reps: seq<Report>)
    requires SpeakerRun(states, ops, costs, reps) && Consistent(states[0])
    ensures forall i | 0 <= i < |states| :: Consistent(states[i])
    ensures ApplyAll(Reachable(states[0]), reps) == Reachable(states[|ops|])
  {
    hide OpStep, Consistent, Reachable, ApplyReport;
    if |ops| > 0 {
      var n := |ops| - 1;
      MirrorFollowsRun(states[..n + 1], ops[..n], costs[..n], reps[..n]);
      assert forall i | 0 <= i <= n :: states[i] == states[..n + 1][i];
      assert OpStep(states[n], ops[n], costs[n], states[n + 1], reps[n]);
      OpKeepsInvariant(states[n], ops[n], costs[n], states[n + 1], reps[n]);
      ReportKeepsMirror(states[n], ops[n], costs[n], states[n + 1], reps[n]);
    }
  }
}
