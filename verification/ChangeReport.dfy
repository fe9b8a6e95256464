/** What a change report is about: the entries of a prefix's export, as they go to the kernel. Stated over the operations of a
    speaker, in terms of the fields of routes. */
module ChangeReport {
  import opened Net
  import opened BabelTypes
  import opened SpeakerState
  import Lists
  import Selection

  /** The routes exported for p, in their order, for some iteration order of the table. */
  ghost predicate Exports(s: State, p: Prefix, list: seq<RouteKey>) {
    var routes, sel := ForPrefix(s.routes, p), Prior(s.selected, p);
    && (sel.Some? ==> sel.value in routes)
    && exists order :: Enumerates(order, routes.Keys) && list == ExportCandidates(routes, order, sel, s.cfg.maxPaths, s.cfg.slack)
  }

  /** What an entry of a fingerprint says of a route. */
  predicate EntryOf(r: Route, e: Export) {
    && e.prefix == r.prefix && e.nextHop == r.nextHop && e.metric == r.metric && e.path == r.path
    && e.intf == if r.neighbour.Some? then Some(r.neighbour.value.intf) else None
  }

  /** fp has an entry for each exported route, in their order, for some iteration order of the routes. */
  ghost predicate Fingerprints(cfg: Config, routes: map<RouteKey, Route>, sel: Option<RouteKey>, fp: Print) {
    && (sel.Some? ==> sel.value in routes)
    && exists order :: Enumerates(order, routes.Keys) && FingerprintFor(cfg, routes, order, sel, fp)
  }

  ghost predicate FingerprintFor(cfg: Config, routes: map<RouteKey, Route>, order: seq<RouteKey>, sel: Option<RouteKey>, fp: Print)
    requires (sel.Some? ==> sel.value in routes) && forall k | k in order :: k in routes
  {
    var list := ExportCandidates(routes, order, sel, cfg.maxPaths, cfg.slack);
    |fp| == |list| && forall i | 0 <= i < |fp| :: list[i] in routes && EntryOf(routes[list[i]], fp[i])
  }

  lemma PrintIsFingerprint(cfg: Config, routes: map<RouteKey, Route>, sel: Option<RouteKey>, fp: Print)
    ensures Prints(cfg, routes, sel, fp) <==> Fingerprints(cfg, routes, sel, fp)
  {
    hide ExportCandidates;
    if sel.Some? ==> sel.value in routes {
      forall order | Enumerates(order, routes.Keys)
        ensures fp == PrintOf(routes, ExportCandidates(routes, order, sel, cfg.maxPaths, cfg.slack))
           <==> FingerprintFor(cfg, routes, order, sel, fp)
      {
        var list := ExportCandidates(routes, order, sel, cfg.maxPaths, cfg.slack);
        assert forall i | 0 <= i < |list| :: list[i] in list;
        if FingerprintFor(cfg, routes, order, sel, fp) {
          assert fp == PrintOf(routes, list);
        }
      }
    }
  }

  /** The same destination, next hop, interface, metric and path metrics. */
  predicate SameEntry(a: Route, b: Route) {
    && a.prefix == b.prefix && a.nextHop == b.nextHop && a.metric == b.metric && a.path == b.path
    && (a.neighbour.None? <==> b.neighbour.None?)
    && (a.neighbour.Some? && b.neighbour.Some? ==> a.neighbour.value.intf == b.neighbour.value.intf)
  }

  ghost predicate SameExport(s: State, list: seq<RouteKey>, s': State, list': seq<RouteKey>) {
    && |list| == |list'|
    && forall i | 0 <= i < |list| ::
         list[i] in s.routes && list'[i] in s'.routes && SameEntry(s.routes[list[i]], s'.routes[list'[i]])
  }

  /** Some exports before and after agree entry for entry. */
  ghost predicate SomeAgree(s: State, s': State, p: Prefix) {
    exists l, l' :: Exports(s, p, l) && Exports(s', p, l') && SameExport(s, l, s', l')
  }

  ghost predicate SomeDiffer(s: State, s': State, p: Prefix) {
    exists l, l' :: Exports(s, p, l) && Exports(s', p, l') && !SameExport(s, l, s', l')
  }

  lemma PrintedExport(s: State, p: Prefix) returns (list: seq<RouteKey>)
    requires Printed(s) && p in s.selected
    ensures Exports(s, p, list) && (forall k | k in list :: k in s.routes)
    ensures |list| == |s.prints[p]| && forall i | 0 <= i < |list| :: s.prints[p][i] == ExportOf(s.routes[list[i]])
  {
    hide ExportOf, ExportCandidates;
    var routes, sel := ForPrefix(s.routes, p), s.selected[p];
    assert Prints(s.cfg, routes, sel, s.prints[p]);
    var order :| Enumerates(order, routes.Keys)
                 && s.prints[p] == PrintOf(routes, ExportCandidates(routes, order, sel, s.cfg.maxPaths, s.cfg.slack));
    list := ExportCandidates(routes, order, sel, s.cfg.maxPaths, s.cfg.slack);
  }

  lemma EntryIsPrint(a: Route, b: Route)
    ensures SameEntry(a, b) <==> ExportOf(a) == ExportOf(b)
  {
  }

  lemma EqualPrints(s: State, l: seq<RouteKey>, fp: Print, s': State, l': seq<RouteKey>, fp': Print)
    requires (forall k | k in l :: k in s.routes) && (forall k | k in l' :: k in s'.routes) && |l| == |fp| && |l'| == |fp'|
    requires forall i | 0 <= i < |l| :: fp[i] == ExportOf(s.routes[l[i]])
    requires forall i | 0 <= i < |l'| :: fp'[i] == ExportOf(s'.routes[l'[i]])
    ensures SameExport(s, l, s', l') <==> fp == fp'
  {
    hide ExportOf, SameEntry;
    forall i | 0 <= i < |l| && |l| == |l'|
      ensures SameEntry(s.routes[l[i]], s'.routes[l'[i]]) <==> fp[i] == fp'[i]
    {
      assert l[i] in l && l'[i] in l';
      EntryIsPrint(s.routes[l[i]], s'.routes[l'[i]]);
    }
    if fp == fp' {
      assert forall i | 0 <= i < |l| :: l[i] in l && l'[i] in l';
    }
  }

  lemma StoredPrints(s: State, op: Op, costs: RouteKey -> Metric, s': State, rep: Report, p: Prefix)
    requires OpStep(s, op, costs, s', rep) && Consistent(s) && p in s.selected && p in s'.selected
    ensures Consistent(s') && (p in rep.changed <==> s.prints[p] != s'.prints[p])
  {
    Selection.OpKeepsInvariant(s, op, costs, s', rep);
    Selection.TableKeepsSelection(s, op);
    hide Table;
  }

  /** A prefix known before and after is reported unless its exports agree, entry for entry, in next hop, interface, metric and
      path metrics; and it is not reported unless they differ. */
  lemma ReportMeansChange(s: State, op: Op, costs: RouteKey -> Metric, s': State, rep: Report, p: Prefix)
    requires OpStep(s, op, costs, s', rep) && Consistent(s) && p in s.selected && p in s'.selected
    ensures p !in rep.changed ==> SomeAgree(s, s', p)
    ensures p in rep.changed ==> SomeDiffer(s, s', p)
  {
    StoredPrints(s, op, costs, s', rep, p);
    hide OpStep, Exports, SameExport, ExportOf;
    var l := PrintedExport(s, p);
    var l' := PrintedExport(s', p);
    EqualPrints(s, l, s.prints[p], s', l', s'.prints[p]);
  }

  lemma ExportStarts(s: State, p: Prefix, list: seq<RouteKey>)
    requires Exports(s, p, list)
    ensures var sel := Prior(s.selected, p); if sel.Some? then |list| > 0 && list[0] == sel.value else list == []
  {
    hide Collect, BestMetric, Lists.SortStable;
  }

  /** In particular no change of what is selected goes unreported: another selected route that differs in one of these, a new
      next hop of the same one, one where none was, or none where one was. */
  lemma SelectedChangeIsReported(s: State, op: Op, costs: RouteKey -> Metric, s': State, rep: Report, p: Prefix)
    requires OpStep(s, op, costs, s', rep) && Consistent(s) && p in s.selected && p in s'.selected
    requires s.selected[p].Some? && s'.selected[p].Some? ==>
               !(s.selected[p].value in s.routes && s'.selected[p].value in s'.routes
                 && SameEntry(s.routes[s.selected[p].value], s'.routes[s'.selected[p].value]))
    requires s.selected[p].Some? || s'.selected[p].Some?
    ensures p in rep.changed
  {
    hide OpStep, Exports, SameEntry, Consistent;
    ReportMeansChange(s, op, costs, s', rep, p);
    if p !in rep.changed {
      var l, l' :| Exports(s, p, l) && Exports(s', p, l') && SameExport(s, l, s', l');
      ExportStarts(s, p, l);
      ExportStarts(s', p, l');
      assert false;
    }
  }

  /** Prefixes that appear are reported exactly when something is selected for them, and prefixes that vanish always. */
  lemma AppearingAndVanishing(s: State, op: Op, costs: RouteKey -> Metric, s': State, rep: Report, p: Prefix)
    requires OpStep(s, op, costs, s', rep) && Consistent(s)
    ensures p !in s.selected && p in s'.selected ==> (p in rep.changed <==> s'.selected[p].Some?)
    ensures p in s.selected && p !in s'.selected ==> p in rep.changed
    ensures p !in s.selected && p !in s'.selected ==> p !in rep.changed
  {
    Selection.OpKeepsInvariant(s, op, costs, s', rep);
    Selection.TableKeepsSelection(s, op);
    if p !in s.selected && p in s'.selected {
      var l := PrintedExport(s', p);
      ExportStarts(s', p, l);
    }
    hide Table, Printed, KeysMatch, SelectionValid, FlagsAgree, Exports, ExportOf;
  }
}
