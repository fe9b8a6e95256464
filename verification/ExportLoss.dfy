/** When the export of a prefix can lose a better route, exactly. */
module ExportLoss {
  import opened Lists
  import opened Net
  import opened BabelTypes
  import opened SpeakerState
  import opened SpeakerProperties
  import opened ExportSet

  /** A route may be missing if its path is represented, or if no kept entry behind the first is worse. */
  ghost predicate Justified(routes: map<RouteKey, Route>, out: seq<RouteKey>, k: RouteKey)
    requires k in routes && forall c | c in out :: c in routes
  {
    || (exists c :: c in out && SameForwardingPath(routes[c], routes[k]))
    || forall i | 1 <= i < |out| :: !RouteLess(routes[k], routes[out[i]])
  }

  ghost predicate NothingLost(routes: map<RouteKey, Route>, sel: RouteKey, limit: int, out: seq<RouteKey>) {
    && (forall c | c in out :: c in routes)
    && forall k | Eligible(routes, sel, limit, k) && k !in out :: Justified(routes, out, k)
  }

  /** Nothing is lost, however the table is iterated and wherever the list is cut. */
  ghost predicate NeverLoses(routes: map<RouteKey, Route>, sel: RouteKey, limit: int, slack: nat)
    requires sel in routes
  {
    forall order, maxPaths: int | Enumerates(order, routes.Keys) ::
      NothingLost(routes, sel, limit, ExportCandidates(routes, order, Some(sel), maxPaths, slack))
  }

  /** c stands for the path of k, and d ranks between them. */
  predicate Displaces(routes: map<RouteKey, Route>, sel: RouteKey, limit: int, k: RouteKey, c: RouteKey, d: RouteKey) {
    && sel in routes && Eligible(routes, sel, limit, k) && Eligible(routes, sel, limit, c) && Eligible(routes, sel, limit, d)
    && SameForwardingPath(routes[c], routes[k]) && !SameForwardingPath(routes[sel], routes[k])
    && !SameForwardingPath(routes[d], routes[k]) && !SameForwardingPath(routes[sel], routes[d])
    && RouteLess(routes[k], routes[d]) && !RouteLess(routes[c], routes[d])
  }

  predicate Hazard(routes: map<RouteKey, Route>, sel: RouteKey, limit: int) {
    exists k, c, d | k in routes && c in routes && d in routes :: Displaces(routes, sel, limit, k, c, d)
  }

  // ---- Without the hazard nothing is lost ----

  lemma SafeTableLosesNothing(routes: map<RouteKey, Route>, sel: RouteKey, limit: int, size: nat, out: seq<RouteKey>)
    requires sel in routes && SoundExport(routes, sel, limit, size, out) && !Hazard(routes, sel, limit)
    ensures NothingLost(routes, sel, limit, out)
  {
    hide RouteLess, Usable;
    forall k | Eligible(routes, sel, limit, k) && k !in out
      ensures Justified(routes, out, k)
    {
      if !Justified(routes, out, k) {
        LossIsHazard(routes, sel, limit, size, out, k);
      }
    }
  }

  lemma LossIsHazard(routes: map<RouteKey, Route>, sel: RouteKey, limit: int, size: nat, out: seq<RouteKey>, k: RouteKey)
    requires sel in routes && SoundExport(routes, sel, limit, size, out)
    requires Eligible(routes, sel, limit, k) && k !in out && !Justified(routes, out, k)
    ensures Hazard(routes, sel, limit)
  {
    hide RouteLess, Usable, SameForwardingPath;
    assert LeftOut(routes, sel, limit, out, size, k);
    var i :| 1 <= i < |out| && RouteLess(routes[k], routes[out[i]]);
    var c :| Eligible(routes, sel, limit, c) && c !in out && c != k && SameForwardingPath(routes[c], routes[k])
             && NoneWorse(routes, out, size, c);
    assert out[0] in out && out[i] in out && Eligible(routes, sel, limit, out[i]);
    assert Displaces(routes, sel, limit, k, c, out[i]);
  }

  // ---- With it, some order and some limit lose a route ----

  /** The items of a set that has x and y, those two first. */
  lemma ListFrom(items: set<RouteKey>, x: RouteKey, y: RouteKey) returns (order: seq<RouteKey>)
    requires x in items && y in items && x != y
    ensures Enumerates(order, items) && |order| >= 2 && order[0] == x && order[1] == y
  {
    order := [x, y];
    var rest := items - {x, y};
    while rest != {}
      invariant rest <= items && Enumerates(order, items - rest)
      invariant |order| >= 2 && order[0] == x && order[1] == y
      decreases rest
    {
      var k :| k in rest;
      order, rest := order + [k], rest - {k};
    }
  }

  /** The first two routes of the order are collected, and what shares a path with them is not. */
  lemma {:induction false} CollectStarts(routes: map<RouteKey, Route>, order: seq<RouteKey>, sel: RouteKey, limit: int,
                                         k: RouteKey, c: RouteKey, d: RouteKey)
    requires Displaces(routes, sel, limit, k, c, d) && (forall x | x in order :: x in routes)
    requires |order| >= 2 && order[0] == d && order[1] == c
    ensures var got := Collect(routes, order, sel, limit);
            |got| >= 3 && got[1] == d && got[2] == c && k !in got
  {
    var n := |order| - 1;
    if n == 1 {
      TwoCollected(routes, order, sel, limit, k, c, d);
    } else {
      CollectStarts(routes, order[..n], sel, limit, k, c, d);
      var got := Collect(routes, order[..n], sel, limit);
      assert order[n] == k ==> c in got && SameForwardingPath(routes[c], routes[order[n]]);
    }
  }

  lemma TwoCollected(routes: map<RouteKey, Route>, order: seq<RouteKey>, sel: RouteKey, limit: int,
                     k: RouteKey, c: RouteKey, d: RouteKey)
    requires Displaces(routes, sel, limit, k, c, d) && order == [d, c]
    ensures Collect(routes, order, sel, limit) == [sel, d, c] && k !in [sel, d, c]
  {
    assert order[..1] == [d] && [d][..0] == [];
    assert c != d && c != k;
    assert Collect(routes, [], sel, limit) == [sel];
    assert Collect(routes, [d], sel, limit) == [sel, d];
  }

  /** Cut right behind d, the sorted list has neither k nor anything on its path. */
  lemma CutLosesRoute(routes: map<RouteKey, Route>, sel: RouteKey, limit: int, all: seq<RouteKey>, at: nat, after: nat,
                      k: RouteKey, c: RouteKey, d: RouteKey)
    requires Displaces(routes, sel, limit, k, c, d) && DistinctPaths(routes, all) && k !in all
    requires 1 <= at < after < |all| && all[at] == d && all[after] == c
    ensures !NothingLost(routes, sel, limit, Truncate(all, at + 1))
  {
    hide RouteLess, Usable;
    var out := Truncate(all, at + 1);
    assert out == all[..at + 1] && out[at] == d;
    forall x | x in out
      ensures x in routes && !SameForwardingPath(routes[x], routes[k])
    {
      var i :| 0 <= i < at + 1 && all[i] == x;
      assert !SameForwardingPath(routes[all[i]], routes[all[after]]);
    }
    assert !Justified(routes, out, k);
  }

  lemma HazardLoses(routes: map<RouteKey, Route>, sel: RouteKey, limit: int, k: RouteKey, c: RouteKey, d: RouteKey)
    returns (order: seq<RouteKey>, size: nat)
    requires Displaces(routes, sel, limit, k, c, d)
    ensures Enumerates(order, routes.Keys) && size >= 1
    ensures !NothingLost(routes, sel, limit, Finish(routes, Collect(routes, order, sel, limit), size))
  {
    hide NothingLost, Displaces, Collect, SortStable;
    DisplacedKeys(routes, sel, limit, k, c, d);
    order := ListFrom(routes.Keys, d, c);
    var got := Collect(routes, order, sel, limit);
    CollectStarts(routes, order, sel, limit, k, c, d);
    SortedListIsSound(routes, order, sel, limit);
    var all := Sorted(routes, got);
    var at, after := SortedPlaces(routes, got, all, k, c, d);
    size := at + 1;
    CutLosesRoute(routes, sel, limit, all, at, after, k, c, d);
  }

  lemma DisplacedKeys(routes: map<RouteKey, Route>, sel: RouteKey, limit: int, k: RouteKey, c: RouteKey, d: RouteKey)
    requires Displaces(routes, sel, limit, k, c, d)
    ensures {sel, k, c, d} <= routes.Keys && c != d && !Order(routes)(c, d)
  {
    hide RouteLess, Usable;
  }

  /** Collected behind d and not less, c stands behind d in the sorted list. */
  lemma SortedPlaces(routes: map<RouteKey, Route>, got: seq<RouteKey>, all: seq<RouteKey>, k: RouteKey, c: RouteKey, d: RouteKey)
    returns (at: nat, after: nat)
    requires |got| >= 3 && got[1] == d && got[2] == c && k !in got && (forall x | x in got :: x in routes)
    requires all == Sorted(routes, got) && !Order(routes)(c, d)
    ensures 1 <= at < after < |all| && all[at] == d && all[after] == c && k !in all
  {
    hide SortStable, Order;
    var tail := SortStable(Order(routes), got[1..]);
    SortKeepsAhead(Order(routes), got[1..]);
    var i, j :| 0 <= i < j < |tail| && tail[i] == d && tail[j] == c;
    at, after := i + 1, j + 1;
    assert all[at] == d && all[after] == c;
    Reordered(all, got);
  }

  // ---- The exact condition ----

  /** The slack is measured from the same metric in every order. */
  lemma BestIgnoresOrder(routes: map<RouteKey, Route>, a: seq<RouteKey>, b: seq<RouteKey>, start: Metric)
    requires Enumerates(a, routes.Keys) && Enumerates(b, routes.Keys)
    ensures BestMetric(routes, a, start) == BestMetric(routes, b, start)
  {
    BestMetricIsMinimum(routes, a, start);
    BestMetricIsMinimum(routes, b, start);
  }

  /** The export of a learnt selected route never loses a route to a worse one, in any order and with any limit, exactly
      when no three eligible routes are so that one represents the path of another and the third ranks between. */
  lemma LossIff(routes: map<RouteKey, Route>, sel: RouteKey, slack: nat, some: seq<RouteKey>, limit: int)
    requires sel in routes && !routes[sel].Local() && Enumerates(some, routes.Keys)
    requires limit == BestMetric(routes, some, routes[sel].metric) + slack
    ensures NeverLoses(routes, sel, limit, slack) <==> !Hazard(routes, sel, limit)
  {
    hide SoundExport, NothingLost, BestMetric, Displaces, Collect, Finish;
    if !Hazard(routes, sel, limit) {
      forall order, maxPaths: int | Enumerates(order, routes.Keys)
        ensures NothingLost(routes, sel, limit, ExportCandidates(routes, order, Some(sel), maxPaths, slack))
      {
        var out := ExportCandidates(routes, order, Some(sel), maxPaths, slack);
        BestIgnoresOrder(routes, order, some, routes[sel].metric);
        ExportSetIsSound(routes, order, sel, maxPaths, slack, limit, out);
        SafeTableLosesNothing(routes, sel, limit, PathLimit(maxPaths), out);
      }
    } else {
      var k, c, d :| Displaces(routes, sel, limit, k, c, d);
      var order, size := HazardLoses(routes, sel, limit, k, c, d);
      BestIgnoresOrder(routes, order, some, routes[sel].metric);
      assert ExportCandidates(routes, order, Some(sel), size, slack) == Finish(routes, Collect(routes, order, sel, limit), size);
    }
  }
}
