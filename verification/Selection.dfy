/** What route selection guarantees, for every iteration order of the route table. */
module Selection {
  import opened Lists
  import opened Net
  import opened BabelTypes
  import opened SpeakerState

  lemma ChosenIsCandidate(table: map<RouteKey, Route>, prev: Option<RouteKey>, sel: Option<RouteKey>)
    requires Chosen(table, prev, sel)
    ensures sel.Some? <==> Candidates(table) != {}
    ensures sel.Some? ==> sel.value in Candidates(table)
  {
  }

  /** Setting the selected flags afterwards does not change what was chosen. */
  lemma ChosenDespiteFlags(refreshed: map<RouteKey, Route>, routes: map<RouteKey, Route>, p: Prefix,
                           candidates: seq<RouteKey>, prev: Option<RouteKey>, sel: Option<RouteKey>)
    requires routes.Keys == refreshed.Keys
    requires forall k | k in routes :: routes[k] == refreshed[k].(selected := routes[k].selected)
    requires forall k :: k in candidates <==> k in routes && k.prefix == p && Candidate(refreshed[k])
    requires candidates == [] ==> sel == None
    requires candidates != [] ==>
               var cands := set k | k in candidates;
               exists best :: Minimal(refreshed, cands, best) && sel == Some(Hysteresis(refreshed, cands, prev, best))
    ensures Chosen(ForPrefix(routes, p), prev, sel)
  {
    var table := ForPrefix(routes, p);
    var cands := set k | k in candidates;
    assert Candidates(table) == cands;
    if candidates != [] {
      assert candidates[0] in cands;
      var best :| Minimal(refreshed, cands, best) && sel == Some(Hysteresis(refreshed, cands, prev, best));
      assert Minimal(table, cands, best);
      assert Hysteresis(table, cands, prev, best) == Hysteresis(refreshed, cands, prev, best);
    }
  }

  /** The selected route of a prefix is one of its table entries and a candidate. */
  lemma SelectedIsCandidate(pre: State, costs: RouteKey -> Metric, post: State, rep: Report, p: Prefix)
    requires SelectionStep(pre, costs, post, rep)
    requires p in post.selected && post.selected[p].Some?
    ensures var k := post.selected[p].value; k in post.routes && k.prefix == p && Candidate(post.routes[k])
  {
    ChosenIsCandidate(ForPrefix(post.routes, p), Prior(pre.selected, p), post.selected[p]);
  }

  /** A route is flagged as selected exactly when it is the one stored for its prefix. */
  lemma FlagsMatch(pre: State, costs: RouteKey -> Metric, post: State)
    requires KeysMatch(pre.routes) && Reselected(pre.routes, costs, post.selected, post.routes)
    ensures KeysMatch(post.routes) && FlagsAgree(post)
  {
  }

  /** A selection run re-establishes the invariant between operations. */
  lemma SelectionKeepsInvariant(pre: State, costs: RouteKey -> Metric, post: State, rep: Report)
    requires Keyed(pre) && SelectionStep(pre, costs, post, rep)
    ensures Consistent(post)
  {
    FlagsMatch(pre, costs, post);
    assert Prefixes(post.routes) == Prefixes(pre.routes);
    forall p | p in post.selected && post.selected[p].Some?
      ensures SelectionValid(post, p)
    {
      SelectedIsCandidate(pre, costs, post, rep, p);
    }
  }

  // ---- The change report, while it is being built ----

  /** What prefix p adds: `was` and `wasPrint` are its previous choice and fingerprint. */
  function ReportOne(rep: Report, p: Prefix, was: Option<RouteKey>, wasPrint: Print,
                     sel: Option<RouteKey>, fp: Print): Report {
    if wasPrint == fp then rep
    else if sel.Some? then rep.(changed := rep.changed + [p], updates := rep.updates + [sel.value])
    else if was.Some? then rep.(changed := rep.changed + [p], retractions := rep.retractions + [was])
    else rep.(changed := rep.changed + [p])
  }

  /** The report covers exactly the prefixes selected so far. */
  ghost predicate ReportsLive(pre: State, selected: map<Prefix, Option<RouteKey>>, prints: map<Prefix, Print>, rep: Report) {
    && selected.Keys == prints.Keys
    && (forall p :: p in rep.changed <==> p in prints && Lookup(pre.prints, p, []) != prints[p])
    && (forall k :: k in rep.updates <==> k.prefix in rep.changed && Prior(selected, k.prefix) == Some(k))
    && (forall o :: o in rep.retractions <==> Retracted(pre, selected, rep, o))
  }

  lemma ReportGrows(pre: State, selected: map<Prefix, Option<RouteKey>>, prints: map<Prefix, Print>, rep: Report,
                    p: Prefix, sel: Option<RouteKey>, fp: Print)
    requires ReportsLive(pre, selected, prints, rep) && p !in selected
    requires sel.Some? ==> sel.value.prefix == p
    ensures ReportsLive(pre, selected[p := sel], prints[p := fp], ReportOne(rep, p, Prior(pre.selected, p), Lookup(pre.prints, p, []), sel, fp))
  {
    var rep' := ReportOne(rep, p, Prior(pre.selected, p), Lookup(pre.prints, p, []), sel, fp);
    assert forall q :: q in rep'.changed <==> q in rep.changed || (q == p && Lookup(pre.prints, p, []) != fp);
    forall o
      ensures o in rep'.retractions <==> Retracted(pre, selected[p := sel], rep', o)
    {
      RetractedGrows(pre, selected, prints, rep, p, sel, fp, rep', o);
    }
  }

  /** Some reported prefix lost its selected route, which was o. */
  ghost predicate Retracted(pre: State, selected: map<Prefix, Option<RouteKey>>, rep: Report, o: Option<RouteKey>) {
    o.Some? && exists p :: p in rep.changed && p in selected && selected[p].None? && Prior(pre.selected, p) == o
  }

  lemma RetractedGrows(pre: State, selected: map<Prefix, Option<RouteKey>>, prints: map<Prefix, Print>, rep: Report,
                       p: Prefix, sel: Option<RouteKey>, fp: Print, rep': Report, o: Option<RouteKey>)
    requires ReportsLive(pre, selected, prints, rep) && p !in selected
    requires rep' == ReportOne(rep, p, Prior(pre.selected, p), Lookup(pre.prints, p, []), sel, fp)
    ensures o in rep'.retractions <==> Retracted(pre, selected[p := sel], rep', o)
  {
    var selected' := selected[p := sel];
    if o in rep.retractions {
      var q :| q in rep.changed && q in selected && selected[q].None? && Prior(pre.selected, q) == o;
      assert q in rep'.changed && q in selected' && selected'[q].None?;
    } else if o in rep'.retractions {
      assert p in rep'.changed && selected'[p].None? && Prior(pre.selected, p) == o;
    }
  }

  /** With the vanished prefixes added the report is complete. */
  lemma ReportComplete(pre: State, post: State, live: Report, rep: Report)
    requires ReportsLive(pre, post.selected, post.prints, live)
    requires rep.updates == live.updates
    requires forall p :: p in rep.changed <==> p in live.changed || p in pre.selected.Keys - post.selected.Keys
    requires forall o :: o in rep.retractions <==>
               o in live.retractions || exists p :: p in pre.selected.Keys - post.selected.Keys && pre.selected[p] == o
    ensures Reports(pre, post, rep)
  {
    forall p
      ensures p in rep.changed <==> Changed(pre, post, p)
    {
    }
    forall o
      ensures o in rep.retractions <==> exists p :: Retracts(pre, post, p, o)
    {
      if o in live.retractions {
        var p :| p in live.changed && p in post.selected && post.selected[p].None? && Prior(pre.selected, p) == o;
        assert Retracts(pre, post, p, o);
      } else if p :| p in pre.selected.Keys - post.selected.Keys && pre.selected[p] == o {
        assert Retracts(pre, post, p, o);
      }
      if p :| Retracts(pre, post, p, o) {
        if p in post.selected {
          assert p in live.changed && Prior(pre.selected, p) == o;
        }
      }
    }
  }

  // ---- The selection, while it runs over the prefixes ----

  /** The routes of the prefixes in `selected` are reselected, the others are untouched. */
  ghost predicate RoutesSoFar(pre: State, costs: RouteKey -> Metric, routes: map<RouteKey, Route>,
                              selected: map<Prefix, Option<RouteKey>>) {
    && routes.Keys == pre.routes.Keys
    && forall k | k in routes ::
         routes[k] == if k.prefix in selected then Reselect(pre.routes[k], costs(k), selected[k.prefix]) else pre.routes[k]
  }

  ghost predicate ChosenSoFar(pre: State, routes: map<RouteKey, Route>, selected: map<Prefix, Option<RouteKey>>) {
    forall p | p in selected :: Chosen(ForPrefix(routes, p), Prior(pre.selected, p), selected[p])
  }

  ghost predicate PrintedSoFar(cfg: Config, routes: map<RouteKey, Route>, selected: map<Prefix, Option<RouteKey>>,
                               prints: map<Prefix, Print>) {
    && prints.Keys == selected.Keys
    && forall p | p in selected :: Prints(cfg, ForPrefix(routes, p), selected[p], prints[p])
  }

  lemma SelectionStarts(pre: State, costs: RouteKey -> Metric)
    ensures RoutesSoFar(pre, costs, pre.routes, map[]) && ChosenSoFar(pre, pre.routes, map[])
    ensures PrintedSoFar(pre.cfg, pre.routes, map[], map[]) && ReportsLive(pre, map[], map[], NO_REPORT)
  {
  }

  lemma RoutesGrow(pre: State, costs: RouteKey -> Metric, before: map<RouteKey, Route>, routes: map<RouteKey, Route>,
                   selected: map<Prefix, Option<RouteKey>>, p: Prefix, sel: Option<RouteKey>)
    requires RoutesSoFar(pre, costs, before, selected) && p !in selected
    requires OnlyPrefix(before, costs, routes, p, sel)
    ensures RoutesSoFar(pre, costs, routes, selected[p := sel])
  {
  }

  /** Only the routes of prefix p were reselected. */
  ghost predicate OnlyPrefix(before: map<RouteKey, Route>, costs: RouteKey -> Metric, routes: map<RouteKey, Route>,
                             p: Prefix, sel: Option<RouteKey>) {
    && routes.Keys == before.Keys
    && forall k | k in routes ::
         routes[k] == if k.prefix == p then Reselect(before[k], costs(k), sel) else before[k]
  }

  lemma RefreshThenMark(before: map<RouteKey, Route>, refreshed: map<RouteKey, Route>, after: map<RouteKey, Route>,
                        order: seq<RouteKey>, p: Prefix, costs: RouteKey -> Metric, sel: Option<RouteKey>)
    requires KeysMatch(before) && before.Keys == refreshed.Keys == after.Keys
    requires Enumerates(order, ForPrefix(before, p).Keys)
    requires forall k | k in before :: refreshed[k] == if k in order then Refresh(before[k], costs(k)) else before[k]
    requires forall k | k in before ::
               after[k] == if k in order then refreshed[k].(selected := sel == Some(k)) else refreshed[k]
    ensures OnlyPrefix(before, costs, after, p, sel) && KeysMatch(after)
    ensures forall k | k in after :: after[k] == refreshed[k].(selected := after[k].selected)
  {
    forall k | k in before
      ensures after[k] == if k.prefix == p then Reselect(before[k], costs(k), sel) else before[k]
      ensures after[k].Key() == k && after[k] == refreshed[k].(selected := after[k].selected)
    {
      assert k in order <==> k.prefix == p;
    }
  }

  lemma OtherPrefixesStay(before: map<RouteKey, Route>, costs: RouteKey -> Metric, routes: map<RouteKey, Route>,
                          p: Prefix, sel: Option<RouteKey>, q: Prefix)
    requires OnlyPrefix(before, costs, routes, p, sel) && q != p
    ensures ForPrefix(routes, q) == ForPrefix(before, q)
  {
  }

  lemma ChoicesGrow(pre: State, costs: RouteKey -> Metric, before: map<RouteKey, Route>, routes: map<RouteKey, Route>,
                    selected: map<Prefix, Option<RouteKey>>, p: Prefix, sel: Option<RouteKey>)
    requires ChosenSoFar(pre, before, selected) && p !in selected
    requires OnlyPrefix(before, costs, routes, p, sel)
    requires Chosen(ForPrefix(routes, p), Prior(pre.selected, p), sel)
    ensures ChosenSoFar(pre, routes, selected[p := sel])
  {
    hide Chosen, ForPrefix, OnlyPrefix;
    forall q | q in selected
      ensures Chosen(ForPrefix(routes, q), Prior(pre.selected, q), selected[q])
    {
      OtherPrefixesStay(before, costs, routes, p, sel, q);
    }
  }

  lemma PrintsGrow(cfg: Config, costs: RouteKey -> Metric, before: map<RouteKey, Route>, routes: map<RouteKey, Route>,
                   selected: map<Prefix, Option<RouteKey>>, prints: map<Prefix, Print>,
                   p: Prefix, sel: Option<RouteKey>, fp: Print)
    requires PrintedSoFar(cfg, before, selected, prints) && p !in selected
    requires OnlyPrefix(before, costs, routes, p, sel)
    requires Prints(cfg, ForPrefix(routes, p), sel, fp)
    ensures PrintedSoFar(cfg, routes, selected[p := sel], prints[p := fp])
  {
    hide Prints, ForPrefix, OnlyPrefix;
    forall q | q in selected
      ensures Prints(cfg, ForPrefix(routes, q), selected[q], prints[q])
    {
      OtherPrefixesStay(before, costs, routes, p, sel, q);
    }
  }

  lemma Overlay<K, V>(m: map<K, V>, dropped: set<K>, n: map<K, V>)
    requires m.Keys - dropped <= n.Keys
    ensures (m - dropped) + n == n
  {
  }

  lemma SoFarComplete(pre: State, costs: RouteKey -> Metric, post: State)
    requires RoutesSoFar(pre, costs, post.routes, post.selected)
    requires ChosenSoFar(pre, post.routes, post.selected)
    requires PrintedSoFar(post.cfg, post.routes, post.selected, post.prints)
    requires post.selected.Keys == Prefixes(pre.routes)
    ensures Reselected(pre.routes, costs, post.selected, post.routes) && AllChosen(pre, post) && Printed(post)
  {
  }

  /** What is written for a route depends on the configuration only. */
  lemma EncodedByConfig(s: State, t: State, r: Route, hop: Addr)
    requires s.cfg == t.cfg
    ensures Encoded(s, r, hop) == Encoded(t, r, hop)
  {
  }

  // ---- The invariant over operations ----

  lemma AcquireKeepsKeys(s: State, n: Neighbour, upd: Update, path: Path, now: nat)
    requires KeysMatch(s.routes)
    ensures var t := Acquire(s, n, upd, path, now); t.Some? ==> KeysMatch(t.value.routes)
  {
  }

  lemma AdvertiseKeepsKeys(s: State, p: Prefix, m: Metric)
    requires KeysMatch(s.routes)
    ensures var t := AdvertiseTable(s, p, m); t.Some? ==> KeysMatch(t.value.routes)
  {
  }

  lemma SweepKeepsKeys(s: State, now: nat)
    requires KeysMatch(s.routes)
    ensures KeysMatch(SweepTable(s, now).routes)
  {
  }

  lemma NothingSwept(routes: map<RouteKey, Route>, now: nat, hold: nat)
    ensures SweptRoutes(routes, [], now, hold) == routes
  {
    hide Due, Expire;
  }

  lemma AllSwept(s: State, order: seq<RouteKey>, now: nat)
    requires Enumerates(order, s.routes.Keys)
    ensures SweptRoutes(s.routes, order, now, s.cfg.routeExpiry) == SweepTable(s, now).routes
  {
    hide Due, Expire;
  }

  /** One more route swept. */
  lemma SweepStep(routes: map<RouteKey, Route>, order: seq<RouteKey>, i: nat, now: nat, hold: nat)
    requires i < |order| && order[i] in routes && order[i] !in order[..i]
    ensures var k, swept := order[i], SweptRoutes(routes, order[..i], now, hold);
            && k in swept && swept[k] == routes[k]
            && SweptRoutes(routes, order[..i + 1], now, hold) ==
               if Due(routes[k], now) && routes[k].metric == RETRACTION then swept - {k} else swept[k := Expire(routes[k], now, hold)]
  {
    hide Due, Expire;
    assert order[..i + 1] == order[..i] + [order[i]];
  }

  lemma AnswerKeepsKeys(s: State, p: Prefix, rid: RouterId, q: SeqNo)
    requires KeysMatch(s.routes)
    ensures KeysMatch(AnswerSeqnoRequest(s, p, rid, q).1.routes)
  {
  }

  /** Every table change keeps the keys of the table. */
  lemma TableKeepsKeys(s: State, op: Op)
    requires KeysMatch(s.routes)
    ensures KeysMatch(Table(s, op).state.routes)
  {
    match op
    case Receive(n, upd, path, now) => AcquireKeepsKeys(s, n, upd, path, now);
    case Advertise(p, m) => AdvertiseKeepsKeys(s, p, m);
    case Sweep(now) => SweepKeepsKeys(s, now);
    case SeqnoRequest(p, rid, q) => AnswerKeepsKeys(s, p, rid, q);
    case _ =>
  }

  /** What a selection may rely on after any table change. */
  lemma TableIsKeyed(s: State, op: Op)
    requires Consistent(s)
    ensures Keyed(Table(s, op).state)
  {
    TableKeepsKeys(s, op);
    TableKeepsSelection(s, op);
  }

  lemma AdvertiseMasked(s: State, prefix: Prefix, metric: Metric)
    requires prefix.Valid()
    ensures Masked(Masked(prefix)) == Masked(prefix)
    ensures AdvertiseTable(s, Masked(prefix), metric) == AdvertiseTable(s, prefix, metric)
  {
    hide Masked;
    MaskedIdempotent(prefix);
  }

  /** No table change touches the selection or the fingerprints. */
  lemma TableKeepsSelection(s: State, op: Op)
    ensures Table(s, op).state.selected == s.selected && Table(s, op).state.prints == s.prints
  {
  }

  /** Tables that differ in sequence numbers only. */
  ghost predicate SameButSeqno(a: map<RouteKey, Route>, b: map<RouteKey, Route>) {
    a.Keys == b.Keys && forall k | k in a :: b[k] == a[k].(seqno := b[k].seqno)
  }

  /** Answering a seqno request keeps the invariant: the sequence number is in no fingerprint. */
  lemma AnswerKeepsInvariant(s: State, prefix: Prefix, rid: RouterId, q: SeqNo)
    requires Consistent(s)
    ensures Consistent(AnswerSeqnoRequest(s, prefix, rid, q).1)
  {
    var t := AnswerSeqnoRequest(s, prefix, rid, q).1;
    AnswerKeepsKeys(s, prefix, rid, q);
    AnswerChangesSeqno(s, prefix, rid, q);
    SeqnoKeepsPrints(s, t);
    SeqnoKeepsValid(s, t);
    SeqnoKeepsFlags(s, t);
  }

  lemma AnswerChangesSeqno(s: State, prefix: Prefix, rid: RouterId, q: SeqNo)
    ensures SameButSeqnos(s, AnswerSeqnoRequest(s, prefix, rid, q).1)
  {
  }

  ghost predicate SameButSeqnos(s: State, t: State) {
    t == s.(routes := t.routes, seqno := t.seqno) && SameButSeqno(s.routes, t.routes)
  }

  lemma SeqnoKeepsPrints(s: State, t: State)
    requires SameButSeqnos(s, t) && Printed(s)
    ensures Printed(t)
  {
    forall p | p in t.selected
      ensures Prints(t.cfg, ForPrefix(t.routes, p), t.selected[p], t.prints[p])
    {
      SeqnoIsNotPrinted(t.cfg, ForPrefix(s.routes, p), ForPrefix(t.routes, p), t.selected[p], t.prints[p]);
    }
  }

  lemma SeqnoKeepsValid(s: State, t: State)
    requires SameButSeqnos(s, t) && s.selected.Keys == Prefixes(s.routes)
    requires forall p | p in s.selected && s.selected[p].Some? :: SelectionValid(s, p)
    ensures t.selected.Keys == Prefixes(t.routes)
    ensures forall p | p in t.selected && t.selected[p].Some? :: SelectionValid(t, p)
  {
    assert Prefixes(t.routes) == Prefixes(s.routes);
    forall p | p in t.selected && t.selected[p].Some?
      ensures SelectionValid(t, p)
    {
      assert SelectionValid(s, p);
    }
  }

  lemma SeqnoKeepsFlags(s: State, t: State)
    requires FlagsAgree(s) && SameButSeqno(s.routes, t.routes) && s.selected == t.selected
    ensures FlagsAgree(t)
  {
  }

  /** Changes without a selection touch nothing the invariant speaks of, except a sequence number. */
  lemma QuietKeepsInvariant(s: State, op: Op)
    requires Consistent(s) && Table(s, op).Quiet?
    ensures Consistent(Table(s, op).state)
  {
    if op.SeqnoRequest? {
      AnswerKeepsInvariant(s, op.prefix, op.rid, op.seqno);
    } else {
      QuietIsSourcesOnly(s, op);
      SourcesAreNotCovered(s, Table(s, op).state);
    }
  }

  lemma QuietIsSourcesOnly(s: State, op: Op)
    requires Table(s, op).Quiet? && !op.SeqnoRequest?
    ensures Table(s, op).state == s.(sources := Table(s, op).state.sources)
  {
  }

  lemma SourcesAreNotCovered(s: State, t: State)
    requires Consistent(s) && t == s.(sources := t.sources)
    ensures Consistent(t)
  {
    forall p | p in t.selected && t.selected[p].Some?
      ensures SelectionValid(t, p)
    {
      assert SelectionValid(s, p);
    }
  }

  /** Tables that differ in sequence numbers only export the same list with the same fingerprint. */
  lemma SeqnoIsNotPrinted(cfg: Config, a: map<RouteKey, Route>, b: map<RouteKey, Route>, sel: Option<RouteKey>, fp: Print)
    requires SameButSeqno(a, b) && Prints(cfg, a, sel, fp)
    ensures Prints(cfg, b, sel, fp)
  {
    var order :| Enumerates(order, a.Keys) && fp == PrintOf(a, ExportCandidates(a, order, sel, cfg.maxPaths, cfg.slack));
    SameExport(a, b, order, sel, cfg.maxPaths, cfg.slack);
    SamePrint(a, b, ExportCandidates(a, order, sel, cfg.maxPaths, cfg.slack));
  }

  lemma SamePrint(a: map<RouteKey, Route>, b: map<RouteKey, Route>, keys: seq<RouteKey>)
    requires SameButSeqno(a, b) && forall k | k in keys :: k in a
    ensures PrintOf(a, keys) == PrintOf(b, keys)
  {
  }

  lemma SameOrder(a: map<RouteKey, Route>, b: map<RouteKey, Route>, x: RouteKey, y: RouteKey)
    requires SameButSeqno(a, b) && x in a && y in a
    ensures Order(a)(x, y) == Order(b)(x, y)
  {
    assert b[x] == a[x].(seqno := b[x].seqno) && b[y] == a[y].(seqno := b[y].seqno);
    assert RouteLess(a[x], a[y]) == RouteLess(b[x], b[y]);
  }

  lemma {:induction false} SameFinish(a: map<RouteKey, Route>, b: map<RouteKey, Route>, got: seq<RouteKey>, limit: nat)
    requires SameButSeqno(a, b) && |got| > 0 && forall k | k in got :: k in a
    ensures Finish(a, got, limit) == Finish(b, got, limit)
  {
    forall x, y | x in got[1..] && y in got[1..]
      ensures Order(a)(x, y) == Order(b)(x, y)
    {
      SameOrder(a, b, x, y);
    }
    SortAgrees(Order(a), Order(b), got[1..]);
  }

  lemma {:induction false} SameExport(a: map<RouteKey, Route>, b: map<RouteKey, Route>, order: seq<RouteKey>, sel: Option<RouteKey>,
                   maxPaths: int, slack: nat)
    requires SameButSeqno(a, b) && (sel.Some? ==> sel.value in a) && forall k | k in order :: k in a
    ensures ExportCandidates(a, order, sel, maxPaths, slack) == ExportCandidates(b, order, sel, maxPaths, slack)
  {
    hide BestMetric, Collect, Finish, PathLimit;
    if sel.Some? && !a[sel.value].Local() {
      var start := a[sel.value].metric;
      SameBest(a, b, order, start);
      var limit := BestMetric(a, order, start) + slack;
      SameCollect(a, b, order, sel.value, limit);
      SameFinish(a, b, Collect(a, order, sel.value, limit), PathLimit(maxPaths));
    }
  }

  lemma SameBest(a: map<RouteKey, Route>, b: map<RouteKey, Route>, order: seq<RouteKey>, start: Metric)
    requires SameButSeqno(a, b)
    requires forall k | k in order :: k in a
    ensures BestMetric(a, order, start) == BestMetric(b, order, start)
  {
  }

  lemma SameCollect(a: map<RouteKey, Route>, b: map<RouteKey, Route>, order: seq<RouteKey>, sel: RouteKey, limit: int)
    requires SameButSeqno(a, b)
    requires sel in a && forall k | k in order :: k in a
    ensures Collect(a, order, sel, limit) == Collect(b, order, sel, limit)
  {
    if order != [] {
      SameCollect(a, b, order[..|order| - 1], sel, limit);
      var got := Collect(a, order[..|order| - 1], sel, limit);
      var r := order[|order| - 1];
      assert forall c | c in got :: SameForwardingPath(a[c], a[r]) <==> SameForwardingPath(b[c], b[r]);
    }
  }

  /** Every operation keeps the invariant: domains coincide, flags match the selection, selected routes
      are candidates, and every fingerprint is one recomputed from the selection. */
  lemma OpKeepsInvariant(s: State, op: Op, costs: RouteKey -> Metric, s': State, rep: Report)
    requires Consistent(s) && OpStep(s, op, costs, s', rep)
    ensures Consistent(s')
  {
    TableKeepsKeys(s, op);
    TableKeepsSelection(s, op);
    if Table(s, op).Quiet? {
      QuietKeepsInvariant(s, op);
    } else {
      SelectionKeepsInvariant(Table(s, op).state, costs, s', rep);
    }
  }
}
