/** Selection settles: in any run that leaves the advertisements of a prefix and the costs of its links as they are, however
    often its routes are renewed, the prefix changes its route at most once, and leaves a route that is worse by 4 or more
    within a fixed number of selections. */
module Convergence {
  import opened Net
  import opened BabelTypes
  import opened SpeakerState
  import opened Selection

  // ---- The smoothing filter on its own ----

  function SmoothN(s: Metric, m: Metric, n: nat): Metric {
    if n == 0 then s else Smooth(SmoothN(s, m, n - 1), m)
  }

  /** The largest distance from the target that n smoothing steps can leave. */
  function Residue(n: nat): nat {
    if n == 0 then 0xffff else (3 * Residue(n - 1) + 2) / 4
  }

  /** Enough steps for every start to come to rest. */
  const SETTLED := 38

  function Shrink(d: nat): nat { (3 * d + 2) / 4 }

  lemma {:induction false} ResidueFourSteps(n: nat, d: nat, d1: nat, d2: nat, d3: nat, d4: nat)
    requires Residue(n) == d && d1 == Shrink(d) && d2 == Shrink(d1) && d3 == Shrink(d2) && d4 == Shrink(d3)
    ensures Residue(n + 4) == d4
  {
    assert Residue(n + 1) == d1;
    assert Residue(n + 2) == d2;
    assert Residue(n + 3) == d3;
  }

  lemma ResidueStep(n: nat)
    ensures Residue(0) == 0xffff && Residue(n + 1) == Shrink(Residue(n))
  {
  }

  lemma ResidueIsSmall() returns (n: nat)
    ensures n == SETTLED - 1 && Residue(n) == 2
  {
    hide Residue;
    n := 0;
    ResidueStep(n);
    ResidueFourSteps(n, 65535, 49151, 36863, 27647, 20735);
    n := n + 4;
    ResidueFourSteps(n, 20735, 15551, 11663, 8747, 6560);
    n := n + 4;
    ResidueFourSteps(n, 6560, 4920, 3690, 2768, 2076);
    n := n + 4;
    ResidueFourSteps(n, 2076, 1557, 1168, 876, 657);
    n := n + 4;
    ResidueFourSteps(n, 657, 493, 370, 278, 209);
    n := n + 4;
    ResidueFourSteps(n, 209, 157, 118, 89, 67);
    n := n + 4;
    ResidueFourSteps(n, 67, 50, 38, 29, 22);
    n := n + 4;
    ResidueFourSteps(n, 22, 17, 13, 10, 8);
    n := n + 4;
    ResidueFourSteps(n, 8, 6, 5, 4, 3);
    n := n + 4;
    ResidueStep(n);
    n := n + 1;
  }

  lemma {:induction false} SmoothingApproaches(s: Metric, m: Metric, n: nat)
    requires m != RETRACTION
    ensures m - Residue(n) <= SmoothN(s, m, n) <= m + Residue(n)
  {
    if n > 0 {
      SmoothingApproaches(s, m, n - 1);
    }
  }

  /** From any start the filter ends, and stays, within [m - 1, m + 2]. */
  lemma {:induction false} SmoothingSettles(s: Metric, m: Metric, n: nat)
    requires m != RETRACTION && n >= SETTLED
    ensures m - 1 <= SmoothN(s, m, n) <= m + 2
  {
    if n == SETTLED {
      var r := ResidueIsSmall();
      SmoothingApproaches(s, m, r);
    } else {
      SmoothingSettles(s, m, n - 1);
    }
  }

  /** Every value in that range is a resting point, except that 0 means "no value yet". */
  lemma {:induction false} SmoothingRests(s: Metric, m: Metric, n: nat)
    requires m != RETRACTION && 1 <= s < RETRACTION && m - 1 <= s <= m + 2
    ensures SmoothN(s, m, n) == s
  {
    if n > 0 {
      SmoothingRests(s, m, n - 1);
    }
  }

  /** From these starting values the better metric ends up with the smaller smoothed value. */
  predicate Separates(better: Metric, held: Metric, s: Metric, t: Metric) {
    SmoothN(s, better, SETTLED) < SmoothN(t, held, SETTLED)
  }

  /** A difference of 4 is the exact threshold: the better metric is sure to end up with the smaller smoothed
      value, from whatever values the two filters start, if and only if it is better by 4 or more. */
  lemma FourIsTheThreshold(better: Metric, held: Metric)
    requires better < held < RETRACTION
    ensures held >= better + 4 <==> forall s: Metric, t: Metric :: Separates(better, held, s, t)
  {
    if held >= better + 4 {
      forall s: Metric, t: Metric
        ensures Separates(better, held, s, t)
      {
        SmoothingSettles(s, better, SETTLED);
        SmoothingSettles(t, held, SETTLED);
      }
    } else {
      var t: Metric := if held == better + 3 then held - 1 else held;
      ThresholdIsSharp(better, held, t);
      assert SmoothN(t, better, SETTLED) >= SmoothN(t, held, SETTLED);
      assert !Separates(better, held, t, t);
    }
  }

  /** Three or less may be held for ever: both filters can rest on the same value. */
  lemma ThresholdIsSharp(better: Metric, held: Metric, t: Metric)
    requires better < held < RETRACTION && held <= better + 3
    requires t == if held == better + 3 then held - 1 else held
    ensures forall n: nat :: SmoothN(t, better, n) >= SmoothN(t, held, n)
  {
    forall n: nat
      ensures SmoothN(t, better, n) >= SmoothN(t, held, n)
    {
      SmoothingRests(t, better, n);
      SmoothingRests(t, held, n);
    }
  }

  // ---- The routes of one prefix, from selection to selection ----

  type RouteTable = map<RouteKey, Route>

  /** Route a with what a repeated advertisement may change, as in b. */
  function Renewed(a: Route, b: Route): Route { a.(seqno := b.seqno, expiry := b.expiry, path := b.path) }

  /** The routes of one prefix from one selection to the next, with renewals before the latter. */
  ghost predicate PrefixStep(a: RouteTable, costs: RouteKey -> Metric, prev: Option<RouteKey>, sel: Option<RouteKey>, b: RouteTable)
  {
    && b.Keys == a.Keys
    && (forall k | k in a :: b[k] == Renewed(Reselect(a[k], costs(k), sel), b[k]))
    && Chosen(b, prev, sel)
  }

  /** tables[i] and held[i] are the routes and the choice after i selections under constant costs and advertisements. */
  ghost predicate SteadyRun(tables: seq<RouteTable>, held: seq<Option<RouteKey>>, costs: RouteKey -> Metric) {
    && |tables| == |held| > 0
    && forall i | 1 <= i < |tables| :: StepAt(tables, held, costs, i)
  }

  ghost predicate StepAt(tables: seq<RouteTable>, held: seq<Option<RouteKey>>, costs: RouteKey -> Metric, i: nat)
    requires |tables| == |held| && 1 <= i < |tables|
  {
    PrefixStep(tables[i - 1], costs, held[i - 1], held[i], tables[i])
  }

  /** Route a with what selections and repeated advertisements may change, as in b. */
  function Alike(a: Route, b: Route): Route { Renewed(a, b).(smoothed := b.smoothed, selected := b.selected) }

  /** After one selection at this cost, a later one finds the same metric and smooths once more. */
  lemma RefreshRepeats(r: Route, a: Route, x: Route, b: Route, cost: Metric, first: Option<RouteKey>, later: Option<RouteKey>)
    requires a == Renewed(Reselect(r, cost, first), a)
    requires x == Alike(a, x) && b == Renewed(Reselect(x, cost, later), b)
    ensures b == Alike(a, b) && (b.metric != RETRACTION ==> b.smoothed == Smooth(x.smoothed, b.metric))
  {
    hide Smooth, LinkMetric;
  }

  /** From the first selection on only smoothed metrics, flags and renewals move, and smoothing iterates. */
  lemma {:induction false} RoutesAreFixed(tables: seq<RouteTable>, held: seq<Option<RouteKey>>, costs: RouteKey -> Metric,
                                          i: nat, k: RouteKey)
    requires SteadyRun(tables, held, costs) && 1 <= i < |tables| && k in tables[1]
    ensures tables[i].Keys == tables[1].Keys
    ensures var a, b := tables[1][k], tables[i][k];
            b == Alike(a, b) && (b.metric != RETRACTION ==> b.smoothed == SmoothN(a.smoothed, b.metric, i - 1))
  {
    hide Chosen, Reselect, Smooth;
    assert StepAt(tables, held, costs, 1);
    if i > 1 {
      RoutesAreFixed(tables, held, costs, i - 1, k);
      assert StepAt(tables, held, costs, i);
      RefreshRepeats(tables[0][k], tables[1][k], tables[i - 1][k], tables[i][k], costs(k), held[1], held[i]);
    }
  }

  /** The candidates and the minimal ones among them are the same in every later table. */
  lemma MinimalIsFixed(tables: seq<RouteTable>, held: seq<Option<RouteKey>>, costs: RouteKey -> Metric, i: nat, best: RouteKey)
    requires SteadyRun(tables, held, costs) && 1 <= i < |tables|
    ensures var a, b := tables[1], tables[i];
            && Candidates(a) == Candidates(b)
            && (Minimal(a, Candidates(a), best) <==> Minimal(b, Candidates(b), best))
  {
    var a, b := tables[1], tables[i];
    TableKeysFixed(tables, held, costs, i);
    forall k | k in a
      ensures b[k] == Alike(a[k], b[k])
    {
      RoutesAreFixed(tables, held, costs, i, k);
    }
    assert Candidates(a) == Candidates(b);
  }

  lemma {:induction false} TableKeysFixed(tables: seq<RouteTable>, held: seq<Option<RouteKey>>, costs: RouteKey -> Metric, i: nat)
    requires SteadyRun(tables, held, costs) && 1 <= i < |tables|
    ensures tables[i].Keys == tables[1].Keys
  {
    if i > 1 {
      TableKeysFixed(tables, held, costs, i - 1);
      assert StepAt(tables, held, costs, i);
    }
  }

  /** A route that no candidate precedes is kept by the next selection. */
  lemma MinimalIsKept(table: RouteTable, prev: RouteKey, sel: Option<RouteKey>)
    requires Chosen(table, Some(prev), sel) && Minimal(table, Candidates(table), prev)
    ensures sel == Some(prev)
  {
  }

  /** A selection that leaves its previous choice moves to a minimal candidate, or to nothing when there is
      no candidate. */
  lemma ChangeIsToMinimal(table: RouteTable, prev: Option<RouteKey>, sel: Option<RouteKey>)
    requires Chosen(table, prev, sel) && sel != prev
    ensures sel.None? ==> Candidates(table) == {}
    ensures sel.Some? ==> Minimal(table, Candidates(table), sel.value)
  {
  }

  /** A choice just changed is kept by any later selection from an equal set of candidates. */
  lemma ChangedChoiceIsKept(first: RouteTable, before: Option<RouteKey>, sel: Option<RouteKey>, later: RouteTable,
                            next: Option<RouteKey>)
    requires Chosen(first, before, sel) && sel != before && Chosen(later, sel, next)
    requires Candidates(first) == Candidates(later)
    requires sel.Some? && Minimal(first, Candidates(first), sel.value) ==> Minimal(later, Candidates(later), sel.value)
    ensures next == sel
  {
    ChangeIsToMinimal(first, before, sel);
    if sel.Some? {
      MinimalIsKept(later, sel.value, next);
    }
  }

  lemma MinimalTravels(tables: seq<RouteTable>, held: seq<Option<RouteKey>>, costs: RouteKey -> Metric, i: nat, j: nat,
                       best: RouteKey)
    requires SteadyRun(tables, held, costs) && 1 <= i < |tables| && 1 <= j < |tables|
    ensures Candidates(tables[i]) == Candidates(tables[j])
    ensures Minimal(tables[i], Candidates(tables[i]), best) ==> Minimal(tables[j], Candidates(tables[j]), best)
  {
    MinimalIsFixed(tables, held, costs, i, best);
    MinimalIsFixed(tables, held, costs, j, best);
  }

  /** The selected route of a prefix changes at most once, however many selections run. */
  lemma {:induction false} AtMostOneChange(tables: seq<RouteTable>, held: seq<Option<RouteKey>>, costs: RouteKey -> Metric,
                                           i: nat, j: nat)
    requires SteadyRun(tables, held, costs)
    requires 1 <= i <= j < |tables| && held[i] != held[i - 1]
    ensures held[j] == held[i]
  {
    if j > i {
      AtMostOneChange(tables, held, costs, i, j - 1);
      ChoiceStays(tables, held, costs, i, j);
    }
  }

  lemma ChoiceStays(tables: seq<RouteTable>, held: seq<Option<RouteKey>>, costs: RouteKey -> Metric, i: nat, j: nat)
    requires SteadyRun(tables, held, costs)
    requires 1 <= i < j < |tables| && held[i] != held[i - 1] && held[j - 1] == held[i]
    ensures held[j] == held[i]
  {
    assert Chosen(tables[i], held[i - 1], held[i]) by { assert StepAt(tables, held, costs, i); }
    assert Chosen(tables[j], held[i], held[j]) by { assert StepAt(tables, held, costs, j); }
    MinimalTravels(tables, held, costs, i, j, if held[i].Some? then held[i].value else RouteKey(ZERO_PREFIX, NoAddr));
    ChangedChoiceIsKept(tables[i], held[i - 1], held[i], tables[j], held[j]);
  }

  /** Once the filters rest, a held route worse by 4 or more loses to every minimal candidate. */
  lemma {:induction false} SettledGapIsLeft(tables: seq<RouteTable>, held: seq<Option<RouteKey>>, costs: RouteKey -> Metric, i: nat,
                                            k: RouteKey, best: RouteKey)
    requires SteadyRun(tables, held, costs) && SETTLED < i < |tables| && held[i - 1] == Some(k)
    requires k in Candidates(tables[i]) && Minimal(tables[i], Candidates(tables[i]), best)
    requires tables[i][best].metric + 4 <= tables[i][k].metric < RETRACTION
    ensures held[i] != Some(k)
  {
    assert StepAt(tables, held, costs, i);
    TableKeysFixed(tables, held, costs, i);
    RouteRests(tables, held, costs, i, k);
    forall c | Minimal(tables[i], Candidates(tables[i]), c)
      ensures tables[i][c].smoothed < tables[i][k].smoothed && tables[i][c].metric < tables[i][k].metric
    {
      assert !RouteLess(tables[i][best], tables[i][c]) && !RouteLess(tables[i][c], tables[i][best]);
      RouteRests(tables, held, costs, i, c);
    }
    BeatenTwiceIsLeft(tables[i], k, held[i]);
  }

  lemma RouteRests(tables: seq<RouteTable>, held: seq<Option<RouteKey>>, costs: RouteKey -> Metric, i: nat, k: RouteKey)
    requires SteadyRun(tables, held, costs) && SETTLED < i < |tables| && k in tables[1]
    ensures k in tables[i]
    ensures var r := tables[i][k]; r.metric != RETRACTION ==> r.metric - 1 <= r.smoothed <= r.metric + 2
  {
    RoutesAreFixed(tables, held, costs, i, k);
    if tables[i][k].metric != RETRACTION {
      SmoothingSettles(tables[1][k].smoothed, tables[i][k].metric, i - 1);
    }
  }

  lemma BeatenTwiceIsLeft(table: RouteTable, k: RouteKey, sel: Option<RouteKey>)
    requires Chosen(table, Some(k), sel) && k in Candidates(table)
    requires forall c | Minimal(table, Candidates(table), c) ::
               table[c].smoothed < table[k].smoothed && table[c].metric < table[k].metric
    ensures sel != Some(k)
  {
  }

  /** If the route held after the first selection exceeds the minimum by 4 or more, then SETTLED selections
      later, and ever after, a route of minimum metric is selected. */
  lemma {:induction false} WorseRouteIsLeft(tables: seq<RouteTable>, held: seq<Option<RouteKey>>, costs: RouteKey -> Metric, i: nat,
                                            k: RouteKey, best: RouteKey)
    requires SteadyRun(tables, held, costs) && SETTLED < i < |tables| && held[1] == Some(k)
    requires k in Candidates(tables[1]) && Minimal(tables[1], Candidates(tables[1]), best)
    requires tables[1][best].metric + 4 <= tables[1][k].metric < RETRACTION
    ensures held[i].Some? && Minimal(tables[1], Candidates(tables[1]), held[i].value)
    ensures tables[1][held[i].value].metric == tables[1][best].metric
  {
    MinimalIsFixed(tables, held, costs, i, best);
    RoutesAreFixed(tables, held, costs, i, k);
    RoutesAreFixed(tables, held, costs, i, best);
    if held[i] == Some(k) {
      var c := FirstChange(tables, held, costs, 1, i - 1);
      if c <= i - 1 {
        AtMostOneChange(tables, held, costs, c, i);
      } else {
        SettledGapIsLeft(tables, held, costs, i, k, best);
      }
    }
    var c := FirstChange(tables, held, costs, 1, i);
    AtMostOneChange(tables, held, costs, c, i);
    assert StepAt(tables, held, costs, c);
    ChangeIsToMinimal(tables[c], held[c - 1], held[c]);
    MinimalIsFixed(tables, held, costs, c, best);
    assert held[c].Some?;
    MinimalIsFixed(tables, held, costs, c, held[c].value);
    assert !RouteLess(tables[1][best], tables[1][held[c].value]) && !RouteLess(tables[1][held[c].value], tables[1][best]);
  }

  /** The first selection in (from, to] that changes the choice, or to + 1. */
  lemma FirstChange(tables: seq<RouteTable>, held: seq<Option<RouteKey>>, costs: RouteKey -> Metric, from: nat, to: nat)
    returns (c: nat)
    requires SteadyRun(tables, held, costs) && from <= to < |tables|
    ensures from < c <= to + 1
    ensures forall j | from <= j < c :: held[j] == held[from]
    ensures c <= to ==> held[c] != held[c - 1]
  {
    c := from + 1;
    while c <= to && held[c] == held[from]
      invariant from < c <= to + 1
      invariant forall j | from <= j < c :: held[j] == held[from]
    {
      c := c + 1;
    }
  }
}
