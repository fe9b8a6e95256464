/** The multipath export set of a prefix. */
module ExportSet {
  import opened Lists
  import opened Net
  import opened BabelTypes
  import opened SpeakerState
  import opened SpeakerProperties

  /** A usable route within the slack: the routes a multipath export may add to the selected one. */
  predicate Eligible(routes: map<RouteKey, Route>, sel: RouteKey, limit: int, k: RouteKey) {
    k in routes && k != sel && Usable(routes[k]) && routes[k].metric <= limit
  }

  /** Pairwise distinct keys and forwarding paths. */
  ghost predicate DistinctPaths(routes: map<RouteKey, Route>, out: seq<RouteKey>) {
    && (forall k | k in out :: k in routes)
    && forall i, j | 0 <= i < j < |out| :: out[i] != out[j] && !SameForwardingPath(routes[out[i]], routes[out[j]])
  }

  ghost predicate SortedTail(routes: map<RouteKey, Route>, out: seq<RouteKey>) {
    && (forall k | k in out :: k in routes)
    && forall i, j | 1 <= i < j < |out| :: !RouteLess(routes[out[j]], routes[out[i]])
  }

  /** The limit is measured from the best metric: the minimum over the selected and the usable routes. */
  lemma {:induction false} BestMetricIsMinimum(routes: map<RouteKey, Route>, order: seq<RouteKey>, start: Metric)
    requires forall k | k in order :: k in routes
    ensures var m := BestMetric(routes, order, start);
            && (forall k | k in order && Usable(routes[k]) :: m <= routes[k].metric)
            && (m == start || exists k :: k in order && Usable(routes[k]) && m == routes[k].metric)
  {
    if order != [] {
      var front, last := order[..|order| - 1], order[|order| - 1];
      BestMetricIsMinimum(routes, front, start);
      assert forall k :: k in order <==> k in front || k == last;
    }
  }

  /** What the collecting loop holds after each step. */
  lemma {:induction false} CollectInvariant(routes: map<RouteKey, Route>, order: seq<RouteKey>, sel: RouteKey, limit: int)
    requires sel in routes && forall k | k in order :: k in routes
    requires forall i, j | 0 <= i < j < |order| :: order[i] != order[j]
    ensures var got := Collect(routes, order, sel, limit);
            && DistinctPaths(routes, got)
            && (forall i | 1 <= i < |got| :: got[i] in order && Eligible(routes, sel, limit, got[i]))
            && (forall k | k in order && Eligible(routes, sel, limit, k) ::
                  exists c :: c in got && (c == k || SameForwardingPath(routes[c], routes[k])))
  {
    if order != [] {
      var front, last := order[..|order| - 1], order[|order| - 1];
      CollectInvariant(routes, front, sel, limit);
      var got := Collect(routes, front, sel, limit);
      assert last !in front;
      assert forall k :: k in order <==> k in front || k == last;
      var out := Collect(routes, order, sel, limit);
      forall k | k in order && Eligible(routes, sel, limit, k)
        ensures exists c :: c in out && (c == k || SameForwardingPath(routes[c], routes[k]))
      {
        if k in front {
          var c :| c in got && (c == k || SameForwardingPath(routes[c], routes[k]));
          assert c in out;
        } else if out == got + [last] {
          assert out[|got|] == last;
        }
      }
    }
  }

  /** b does not rank before a. */
  function NotBehind(routes: map<RouteKey, Route>): (RouteKey, RouteKey) -> bool {
    (a, b) => !(a in routes && b in routes && RouteLess(routes[b], routes[a]))
  }

  lemma SortIsSorted(routes: map<RouteKey, Route>, s: seq<RouteKey>)
    requires forall c | c in s :: c in routes
    ensures Ascending(NotBehind(routes), SortStable(Order(routes), s))
    ensures forall c | c in SortStable(Order(routes), s) :: c in routes
  {
    hide RouteLess;
    forall a, b, c | a in s && b in s && c in s
      ensures if Order(routes)(a, b) then NotBehind(routes)(a, b) else NotBehind(routes)(b, a)
      ensures NotBehind(routes)(a, b) && NotBehind(routes)(b, c) ==> NotBehind(routes)(a, c)
    {
      RouteLessIsWeakOrder(routes[a], routes[b], routes[c]);
    }
    SortAscends(Order(routes), NotBehind(routes), s);
    Reordered(SortStable(Order(routes), s), s);
  }

  lemma TailSorted(routes: map<RouteKey, Route>, first: RouteKey, tail: seq<RouteKey>)
    requires first in routes && Ascending(NotBehind(routes), tail) && forall k | k in tail :: k in routes
    ensures SortedTail(routes, [first] + tail)
  {
    var all := [first] + tail;
    forall i, j | 1 <= i < j < |all|
      ensures !RouteLess(routes[all[j]], routes[all[i]])
    {
      assert all[i] == tail[i - 1] && all[j] == tail[j - 1];
    }
  }

  /** A permutation of distinct forwarding paths is one again. */
  lemma PermutationKeepsPaths(routes: map<RouteKey, Route>, a: seq<RouteKey>, b: seq<RouteKey>)
    requires DistinctPaths(routes, a) && multiset(a) == multiset(b)
    ensures DistinctPaths(routes, b)
    ensures forall k :: k in a <==> k in b
  {
    forall k
      ensures k in a <==> k in b
    {
      assert k in a <==> k in multiset(a);
      assert k in b <==> k in multiset(b);
    }
    forall i, j | 0 <= i < j < |b|
      ensures b[i] != b[j] && !SameForwardingPath(routes[b[i]], routes[b[j]])
    {
      if b[i] == b[j] {
        DuplicateCount(b, i, j);
        DistinctCount(a, b[i]);
      } else {
        assert b[i] in a && b[j] in a;
      }
    }
  }

  lemma DuplicateCount<T>(s: seq<T>, i: nat, j: nat)
    requires i < j < |s| && s[i] == s[j]
    ensures multiset(s)[s[i]] >= 2
  {
    assert s == s[..j] + s[j..];
    assert s[i] in s[..j] && s[j] in s[j..];
  }

  lemma DistinctCount<T>(s: seq<T>, x: T)
    requires forall i, j | 0 <= i < j < |s| :: s[i] != s[j]
    ensures multiset(s)[x] <= 1
  {
    if x in s {
      var k :| 0 <= k < |s| && s[k] == x;
      assert s == s[..k] + [s[k]] + s[k + 1..];
      assert x !in s[..k] && x !in s[k + 1..];
    }
  }

  /** The whole list behind the collecting loop, before the limit cuts it. */
  function Sorted(routes: map<RouteKey, Route>, got: seq<RouteKey>): (all: seq<RouteKey>)
    requires |got| > 0 && forall k | k in got :: k in routes
    ensures |all| == |got| && all[0] == got[0] && multiset(all) == multiset(got)
  {
    assert got == [got[0]] + got[1..];
    Reordered(SortStable(Order(routes), got[1..]), got[1..]);
    [got[0]] + SortStable(Order(routes), got[1..])
  }

  /** What is known of the collected and sorted list. */
  lemma {:induction false} SortedListIsSound(routes: map<RouteKey, Route>, order: seq<RouteKey>, sel: RouteKey, limit: int)
    requires Enumerates(order, routes.Keys) && sel in routes
    ensures var got := Collect(routes, order, sel, limit);
            var all := Sorted(routes, got);
            && all[0] == sel && DistinctPaths(routes, all) && SortedTail(routes, all)
            && (forall i | 1 <= i < |all| :: Eligible(routes, sel, limit, all[i]))
            && (forall k | Eligible(routes, sel, limit, k) ::
                  exists c :: c in all && (c == k || SameForwardingPath(routes[c], routes[k])))
  {
    var got := Collect(routes, order, sel, limit);
    CollectInvariant(routes, order, sel, limit);
    var all := Sorted(routes, got);
    SortIsSorted(routes, got[1..]);
    TailSorted(routes, sel, SortStable(Order(routes), got[1..]));
    PermutationKeepsPaths(routes, got, all);
    TailIsEligible(routes, sel, limit, got, all);
    forall k | Eligible(routes, sel, limit, k)
      ensures exists c :: c in all && (c == k || SameForwardingPath(routes[c], routes[k]))
    {
      var c :| c in got && (c == k || SameForwardingPath(routes[c], routes[k]));
      assert c in all;
    }
  }

  /** A good export set of at most `size` routes: it starts with the selected route, has pairwise distinct
      forwarding paths and a sorted tail of eligible routes. An eligible route that is missing has its path
      represented, or no kept tail entry is worse, or another route of its path was collected first and
      then cut. */
  ghost predicate SoundExport(routes: map<RouteKey, Route>, sel: RouteKey, limit: int, size: nat, out: seq<RouteKey>) {
    && 1 <= |out| <= size && out[0] == sel
    && DistinctPaths(routes, out) && SortedTail(routes, out)
    && EligibleTail(routes, sel, limit, out)
    && MissingExplained(routes, sel, limit, size, out)
  }

  ghost predicate EligibleTail(routes: map<RouteKey, Route>, sel: RouteKey, limit: int, out: seq<RouteKey>) {
    forall i | 1 <= i < |out| :: Eligible(routes, sel, limit, out[i])
  }

  ghost predicate MissingExplained(routes: map<RouteKey, Route>, sel: RouteKey, limit: int, size: nat, out: seq<RouteKey>) {
    && (forall k | k in out :: k in routes)
    && forall k | Eligible(routes, sel, limit, k) && k !in out :: LeftOut(routes, sel, limit, out, size, k)
  }

  /** The export set of a learnt selected route is good, for every iteration order of the table. */
  lemma {:induction false} ExportSetIsSound(routes: map<RouteKey, Route>, order: seq<RouteKey>, sel: RouteKey,
                                            maxPaths: int, slack: nat, limit: int, out: seq<RouteKey>)
    requires Enumerates(order, routes.Keys) && sel in routes && !routes[sel].Local()
    requires limit == BestMetric(routes, order, routes[sel].metric) + slack
    requires out == ExportCandidates(routes, order, Some(sel), maxPaths, slack)
    ensures SoundExport(routes, sel, limit, PathLimit(maxPaths), out)
  {
    hide SoundExport, BestMetric, Collect, Finish, PathLimit;
    CutListIsSound(routes, order, sel, limit, PathLimit(maxPaths), out);
  }

  lemma {:induction false} CutListIsSound(routes: map<RouteKey, Route>, order: seq<RouteKey>, sel: RouteKey, limit: int,
                                          size: nat, out: seq<RouteKey>)
    requires Enumerates(order, routes.Keys) && sel in routes && size >= 1
    requires out == Finish(routes, Collect(routes, order, sel, limit), size)
    ensures SoundExport(routes, sel, limit, size, out)
  {
    SortedListIsSound(routes, order, sel, limit);
    CutKeepsSound(routes, sel, limit, Sorted(routes, Collect(routes, order, sel, limit)), size);
  }

  lemma CutKeepsSound(routes: map<RouteKey, Route>, sel: RouteKey, limit: int, all: seq<RouteKey>, size: nat)
    requires |all| > 0 && all[0] == sel && DistinctPaths(routes, all) && SortedTail(routes, all) && size >= 1
    requires forall i | 1 <= i < |all| :: Eligible(routes, sel, limit, all[i])
    requires forall k | Eligible(routes, sel, limit, k) ::
               exists c :: c in all && (c == k || SameForwardingPath(routes[c], routes[k]))
    ensures SoundExport(routes, sel, limit, size, Truncate(all, size))
  {
    var out := Truncate(all, size);
    forall k | Eligible(routes, sel, limit, k) && k !in out
      ensures LeftOut(routes, sel, limit, out, size, k)
    {
      MissingIsLeftOut(routes, sel, limit, all, size, k);
    }
  }

  lemma TailIsEligible(routes: map<RouteKey, Route>, sel: RouteKey, limit: int, got: seq<RouteKey>, all: seq<RouteKey>)
    requires DistinctPaths(routes, got) && DistinctPaths(routes, all) && multiset(got) == multiset(all)
    requires |got| > 0 && |all| == |got| && all[0] == got[0]
    requires forall i | 1 <= i < |got| :: Eligible(routes, sel, limit, got[i])
    ensures forall i | 1 <= i < |all| :: Eligible(routes, sel, limit, all[i])
  {
    forall i | 1 <= i < |all|
      ensures Eligible(routes, sel, limit, all[i])
    {
      assert all[i] in multiset(got);
      assert all[i] != all[0];
    }
  }

  /** Why an eligible route is missing from the export set. */
  ghost predicate LeftOut(routes: map<RouteKey, Route>, sel: RouteKey, limit: int, out: seq<RouteKey>, size: nat, k: RouteKey)
    requires k in routes && forall c | c in out :: c in routes
  {
    || (exists c :: c in out && SameForwardingPath(routes[c], routes[k]))
    || NoneWorse(routes, out, size, k)
    || (exists c :: Eligible(routes, sel, limit, c) && c !in out && c != k && SameForwardingPath(routes[c], routes[k])
          && NoneWorse(routes, out, size, c))
  }

  /** The list is full and no entry behind the first is worse than k. */
  ghost predicate NoneWorse(routes: map<RouteKey, Route>, out: seq<RouteKey>, size: nat, k: RouteKey)
    requires k in routes && forall c | c in out :: c in routes
  {
    |out| == size && forall i | 1 <= i < |out| :: !RouteLess(routes[k], routes[out[i]])
  }

  lemma MissingIsLeftOut(routes: map<RouteKey, Route>, sel: RouteKey, limit: int, all: seq<RouteKey>, size: nat, k: RouteKey)
    requires |all| > 0 && all[0] == sel && DistinctPaths(routes, all) && SortedTail(routes, all) && size >= 1
    requires forall i | 1 <= i < |all| :: Eligible(routes, sel, limit, all[i])
    requires Eligible(routes, sel, limit, k) && k !in Truncate(all, size)
    requires exists c :: c in all && (c == k || SameForwardingPath(routes[c], routes[k]))
    ensures LeftOut(routes, sel, limit, Truncate(all, size), size, k)
  {
    var out := Truncate(all, size);
    var c :| c in all && (c == k || SameForwardingPath(routes[c], routes[k]));
    if c !in out {
      var at :| 0 <= at < |all| && all[at] == c;
      assert at >= size;
      assert NoneWorse(routes, out, size, c);
    }
  }

  /** Within a good export set: when no two eligible routes share a forwarding path, a missing eligible route
      shares its path with the selected route or no kept tail entry is worse. */
  lemma DistinctPathsLoseNothing(routes: map<RouteKey, Route>, sel: RouteKey, limit: int, size: nat, out: seq<RouteKey>,
                                 k: RouteKey)
    requires sel in routes && SoundExport(routes, sel, limit, size, out)
    requires Eligible(routes, sel, limit, k) && k !in out
    requires forall a, b | Eligible(routes, sel, limit, a) && Eligible(routes, sel, limit, b) && a != b ::
               !SameForwardingPath(routes[a], routes[b])
    ensures SameForwardingPath(routes[sel], routes[k]) || NoneWorse(routes, out, size, k)
  {
    assert LeftOut(routes, sel, limit, out, size, k);
    if c :| c in out && SameForwardingPath(routes[c], routes[k]) {
      var i :| 0 <= i < |out| && out[i] == c;
    }
  }

  // ---- A shared path can cost the better route ----

  function DemoAddr(host: Byte): Addr { V4([10, 0, 0, host]) }

  function DemoKey(host: Byte): RouteKey { RouteKey(Prefix(V4([192, 0, 2, 0]), 24), DemoAddr(host)) }

  /** A route learnt from `host`, forwarded to `hop`. */
  function DemoRoute(host: Byte, hop: Byte, metric: Metric): Route {
    Route(Prefix(V4([192, 0, 2, 0]), 24), [1, 0, 0, 0, 0, 0, 0, 0], Some(Neighbour(DemoAddr(host), 1)), metric, metric, metric,
          1, DemoAddr(hop), true, false, Some(210), false, Path(0, -1, -1, 0))
  }

  /** Hosts 2 and 3 lead to the same next hop. */
  const DEMO_ROUTES: map<RouteKey, Route> :=
    map[DemoKey(1) := DemoRoute(1, 1, 10), DemoKey(2) := DemoRoute(2, 9, 50),
        DemoKey(3) := DemoRoute(3, 9, 11), DemoKey(4) := DemoRoute(4, 4, 20)]

  /** With two paths and this iteration order the route of metric 11 is lost, although its path is not in the
      result and the result holds a worse route: its path was represented by the route of metric 50, which
      was then cut. */
  lemma {:induction false} SharedPathLosesBetterRoute()
    ensures var sel, lost, kept := DemoKey(1), DemoKey(3), DemoKey(4);
            var out := ExportCandidates(DEMO_ROUTES, [DemoKey(1), DemoKey(2), DemoKey(3), DemoKey(4)], Some(sel), 2, 100);
            && out == [sel, kept]
            && Eligible(DEMO_ROUTES, sel, 110, lost)
            && !SameForwardingPath(DEMO_ROUTES[sel], DEMO_ROUTES[lost])
            && !SameForwardingPath(DEMO_ROUTES[kept], DEMO_ROUTES[lost])
            && RouteLess(DEMO_ROUTES[lost], DEMO_ROUTES[kept])
  {
    DemoKeysDiffer();
    LostToSharedPath(DEMO_ROUTES, DemoKey(1), DemoKey(2), DemoKey(3), DemoKey(4));
  }

  /** The general shape of the loss: b and c share a path, b is collected first, d is kept instead. */
  lemma {:induction false} LostToSharedPath(r: map<RouteKey, Route>, a: RouteKey, b: RouteKey, c: RouteKey, d: RouteKey)
    requires {a, b, c, d} <= r.Keys && a != b && a != c && a != d
    requires Usable(r[a]) && Usable(r[b]) && Usable(r[c]) && Usable(r[d]) && !r[a].Local()
    requires r[a].metric == 10 && r[b].metric == 50 && r[c].metric == 11 && r[d].metric == 20
    requires SameForwardingPath(r[b], r[c])
    requires !SameForwardingPath(r[a], r[b]) && !SameForwardingPath(r[a], r[d]) && !SameForwardingPath(r[b], r[d])
    ensures ExportCandidates(r, [a, b, c, d], Some(a), 2, 100) == [a, d]
  {
    assert RouteLess(r[d], r[b]);
    hide RouteLess, SameForwardingPath, Usable, BestMetric, Collect, Finish;
    LostBest(r, a, b, c, d);
    LostCollect(r, a, b, c, d);
    SortTwo(r, b, d);
    LostFinish(r, a, b, d);
  }

  lemma LostFinish(r: map<RouteKey, Route>, a: RouteKey, b: RouteKey, d: RouteKey)
    requires {a, b, d} <= r.Keys && SortStable(Order(r), [b, d]) == [d, b]
    ensures Finish(r, [a, b, d], 2) == [a, d]
  {
    hide SortStable;
    assert [a, b, d][1..] == [b, d];
    assert ([a] + [d, b])[..2] == [a, d];
  }

  lemma {:induction false} LostBest(r: map<RouteKey, Route>, a: RouteKey, b: RouteKey, c: RouteKey, d: RouteKey)
    requires {a, b, c, d} <= r.Keys
    requires r[a].metric == 10 && r[b].metric == 50 && r[c].metric == 11 && r[d].metric == 20
    ensures BestMetric(r, [a, b, c, d], 10) == 10
  {
    assert [a, b, c, d] == [] + [a] + [b] + [c] + [d];
    BestAppend(r, [], a, 10);
    BestAppend(r, [] + [a], b, 10);
    BestAppend(r, [] + [a] + [b], c, 10);
    BestAppend(r, [] + [a] + [b] + [c], d, 10);
  }

  lemma {:induction false} LostCollect(r: map<RouteKey, Route>, a: RouteKey, b: RouteKey, c: RouteKey, d: RouteKey)
    requires {a, b, c, d} <= r.Keys && a != b && a != c && a != d
    requires Usable(r[b]) && Usable(r[c]) && Usable(r[d])
    requires r[b].metric == 50 && r[c].metric == 11 && r[d].metric == 20
    requires SameForwardingPath(r[b], r[c])
    requires !SameForwardingPath(r[a], r[b]) && !SameForwardingPath(r[a], r[d]) && !SameForwardingPath(r[b], r[d])
    ensures Collect(r, [a, b, c, d], a, 110) == [a, b, d]
  {
    hide SameForwardingPath, Usable, Collect;
    NothingCollected(r, a, 110);
    assert [a, b, c, d] == [] + [a] + [b] + [c] + [d];
    CollectAppend(r, [], a, a, 110);
    CollectAppend(r, [] + [a], b, a, 110);
    assert b in [a, b];
    CollectAppend(r, [] + [a] + [b], c, a, 110);
    CollectAppend(r, [] + [a] + [b] + [c], d, a, 110);
    assert [a, b] + [d] == [a, b, d];
  }

  lemma NothingCollected(routes: map<RouteKey, Route>, sel: RouteKey, limit: int)
    requires sel in routes
    ensures Collect(routes, [], sel, limit) == [sel]
  {
  }

  lemma BestAppend(routes: map<RouteKey, Route>, order: seq<RouteKey>, k: RouteKey, start: Metric)
    requires k in routes && forall c | c in order :: c in routes
    ensures var rest := BestMetric(routes, order, start);
            BestMetric(routes, order + [k], start)
            == if Usable(routes[k]) && routes[k].metric < rest then routes[k].metric else rest
  {
    assert (order + [k])[..|order|] == order;
  }

  lemma CollectAppend(routes: map<RouteKey, Route>, order: seq<RouteKey>, k: RouteKey, sel: RouteKey, limit: int)
    requires sel in routes && k in routes && forall c | c in order :: c in routes
    ensures var got := Collect(routes, order, sel, limit);
            Collect(routes, order + [k], sel, limit)
            == if Eligible(routes, sel, limit, k) && !exists c :: c in got && SameForwardingPath(routes[c], routes[k])
               then got + [k] else got
  {
    assert (order + [k])[..|order|] == order;
  }

  /** Two routes in the wrong order are swapped. */
  lemma SortTwo(routes: map<RouteKey, Route>, x: RouteKey, y: RouteKey)
    requires x in routes && y in routes && RouteLess(routes[y], routes[x])
    ensures SortStable(Order(routes), [x, y]) == [y, x]
  {
    SortPair(Order(routes), x, y);
  }

  lemma DemoKeysDiffer()
    ensures forall i: Byte, j: Byte :: i != j ==> DemoAddr(i) != DemoAddr(j) && DemoKey(i) != DemoKey(j)
  {
    forall i: Byte, j: Byte | i != j
      ensures DemoAddr(i) != DemoAddr(j)
    {
      assert DemoAddr(i).octets[3] != DemoAddr(j).octets[3];
    }
  }
}
