/** When the export of a prefix loses a better route under the path limit it is configured with, exactly. */
module ExportLimit {
  import opened Lists
  import opened Net
  import opened BabelTypes
  import opened SpeakerState
  import opened SpeakerProperties
  import opened ExportSet
  import opened ExportLoss
  import opened ExportExact

  // ---- Counting paths ----

  /** The forwarding path of a route; a local route shares its path with no other. */
  datatype PathId = Alone(key: RouteKey) | Over(intf: nat, hop: Addr)

  function PathOf(routes: map<RouteKey, Route>, k: RouteKey): PathId
    requires k in routes
  {
    if routes[k].Local() then Alone(k) else Over(routes[k].neighbour.value.intf, routes[k].nextHop.Unmap())
  }

  lemma PathOfIff(routes: map<RouteKey, Route>, a: RouteKey, b: RouteKey)
    requires a in routes && b in routes
    ensures PathOf(routes, a) == PathOf(routes, b) <==> a == b || SameForwardingPath(routes[a], routes[b])
  {
  }

  /** The eligible routes on other paths than the selected route and k. */
  function Rivals(routes: map<RouteKey, Route>, sel: RouteKey, limit: int, k: RouteKey): set<RouteKey>
    requires sel in routes && k in routes
  {
    set e | e in routes && Eligible(routes, sel, limit, e) && PathOf(routes, e) != PathOf(routes, sel)
            && PathOf(routes, e) != PathOf(routes, k)
  }

  /** The paths among them that some iteration order lists before c. */
  function MayLead(routes: map<RouteKey, Route>, sel: RouteKey, limit: int, k: RouteKey, c: RouteKey): set<PathId>
    requires sel in routes && k in routes && c in routes
  {
    set e | e in Rivals(routes, sel, limit, k) && !RouteLess(routes[c], routes[e]) :: PathOf(routes, e)
  }

  /** The paths among them that every iteration order lists before d. */
  function MustLead(routes: map<RouteKey, Route>, sel: RouteKey, limit: int, k: RouteKey, d: RouteKey): set<PathId>
    requires sel in routes && k in routes && d in routes
  {
    set e | e in Rivals(routes, sel, limit, k) && AllLess(routes, Rivals(routes, sel, limit, k), e, d) :: PathOf(routes, e)
  }

  predicate AllLess(routes: map<RouteKey, Route>, rivals: set<RouteKey>, e: RouteKey, d: RouteKey)
    requires rivals <= routes.Keys && e in routes && d in routes
  {
    forall f | f in rivals && PathOf(routes, f) == PathOf(routes, e) :: RouteLess(routes[f], routes[d])
  }

  /** k is displaced by c and d, and the limit can be made to fall between d and c. */
  predicate Crowds(routes: map<RouteKey, Route>, sel: RouteKey, limit: int, size: nat, k: RouteKey, c: RouteKey, d: RouteKey) {
    && Displaces(routes, sel, limit, k, c, d)
    && |MustLead(routes, sel, limit, k, d)| + 2 <= size <= |MayLead(routes, sel, limit, k, c)| + 1
  }

  predicate Overflow(routes: map<RouteKey, Route>, sel: RouteKey, limit: int, size: nat) {
    exists k, c, d | k in routes && c in routes && d in routes :: Crowds(routes, sel, limit, size, k, c, d)
  }

  function PathsOf(routes: map<RouteKey, Route>, s: seq<RouteKey>): set<PathId>
    requires forall k | k in s :: k in routes
  {
    set k | k in s :: PathOf(routes, k)
  }

  predicate ApartPaths(routes: map<RouteKey, Route>, s: seq<RouteKey>) {
    && (forall k | k in s :: k in routes)
    && forall i, j | 0 <= i < j < |s| :: PathOf(routes, s[i]) != PathOf(routes, s[j])
  }

  lemma {:induction false} PathsCount(routes: map<RouteKey, Route>, s: seq<RouteKey>)
    requires ApartPaths(routes, s)
    ensures |PathsOf(routes, s)| == |s|
  {
    hide PathOf;
    if s == [] {
      assert PathsOf(routes, s) == {};
    } else {
      var front, x := s[..|s| - 1], s[|s| - 1];
      PathsCount(routes, front);
      assert PathsOf(routes, s) == PathsOf(routes, front) + {PathOf(routes, x)};
      assert PathOf(routes, x) !in PathsOf(routes, front);
    }
  }

  // ---- A loss shows the crowd ----

  lemma LossCrowds(routes: map<RouteKey, Route>, sel: RouteKey, limit: int, size: nat, out: seq<RouteKey>, k: RouteKey)
    requires sel in routes && SoundExport(routes, sel, limit, size, out)
    requires Eligible(routes, sel, limit, k) && k !in out && !Justified(routes, out, k)
    ensures Overflow(routes, sel, limit, size)
  {
    hide RouteLess, Usable, SameForwardingPath, MayLead, MustLead;
    assert LeftOut(routes, sel, limit, out, size, k);
    var i :| 1 <= i < |out| && RouteLess(routes[k], routes[out[i]]);
    var c :| Eligible(routes, sel, limit, c) && c !in out && c != k && SameForwardingPath(routes[c], routes[k])
             && NoneWorse(routes, out, size, c);
    var d := out[i];
    assert out[0] in out && d in out && Eligible(routes, sel, limit, d);
    assert Displaces(routes, sel, limit, k, c, d);
    ListedAreRivals(routes, sel, limit, size, out, k, c);
    LeadersAreListed(routes, sel, limit, size, out, k, i);
    assert Crowds(routes, sel, limit, size, k, c, d);
  }

  lemma ListedAreRivals(routes: map<RouteKey, Route>, sel: RouteKey, limit: int, size: nat, out: seq<RouteKey>, k: RouteKey,
                        c: RouteKey)
    requires sel in routes && SoundExport(routes, sel, limit, size, out) && Eligible(routes, sel, limit, k) && k !in out
    requires c in routes && NoneWorse(routes, out, size, c)
    requires forall x | x in out :: !SameForwardingPath(routes[x], routes[k])
    ensures size <= |MayLead(routes, sel, limit, k, c)| + 1
  {
    hide RouteLess, Usable, SameForwardingPath, PathOf;
    var tail := out[1..];
    TailIsApart(routes, out, k);
    PathsCount(routes, tail);
    forall e | e in tail
      ensures PathOf(routes, e) in MayLead(routes, sel, limit, k, c)
    {
      var j :| 0 <= j < |tail| && tail[j] == e;
      assert out[j + 1] == e && Eligible(routes, sel, limit, e);
      assert e in Rivals(routes, sel, limit, k);
    }
    SubsetSize(PathsOf(routes, tail), MayLead(routes, sel, limit, k, c));
  }

  lemma TailIsApart(routes: map<RouteKey, Route>, out: seq<RouteKey>, k: RouteKey)
    requires |out| > 0 && DistinctPaths(routes, out) && k in routes && k !in out
    requires forall x | x in out :: !SameForwardingPath(routes[x], routes[k])
    ensures ApartPaths(routes, out[1..])
    ensures forall e | e in out[1..] :: PathOf(routes, e) != PathOf(routes, out[0]) && PathOf(routes, e) != PathOf(routes, k)
  {
    hide SameForwardingPath, PathOf;
    var tail := out[1..];
    forall i, j | 0 <= i < j < |tail|
      ensures PathOf(routes, tail[i]) != PathOf(routes, tail[j])
    {
      assert tail[i] == out[i + 1] && tail[j] == out[j + 1];
      PathOfIff(routes, tail[i], tail[j]);
    }
    forall e | e in tail
      ensures PathOf(routes, e) != PathOf(routes, out[0]) && PathOf(routes, e) != PathOf(routes, k)
    {
      var i :| 0 <= i < |tail| && tail[i] == e;
      assert out[i + 1] == e && e in out;
      PathOfIff(routes, out[0], e);
      PathOfIff(routes, e, k);
    }
  }

  /** A path all of whose routes rank before out[i] is listed. */
  lemma LeadersAreListed(routes: map<RouteKey, Route>, sel: RouteKey, limit: int, size: nat, out: seq<RouteKey>, k: RouteKey,
                         i: nat)
    requires sel in routes && SoundExport(routes, sel, limit, size, out) && Eligible(routes, sel, limit, k) && k !in out
    requires forall x | x in out :: !SameForwardingPath(routes[x], routes[k])
    requires 1 <= i < |out|
    ensures |MustLead(routes, sel, limit, k, out[i])| + 2 <= size
  {
    hide RouteLess, Usable, SameForwardingPath, PathOf, MissingExplained;
    var tail, d := out[1..], out[i];
    var paths := PathsOf(routes, tail);
    TailIsApart(routes, out, k);
    PathsCount(routes, tail);
    assert tail[i - 1] == d;
    assert PathOf(routes, d) in paths;
    assert d in Rivals(routes, sel, limit, k);
    forall q | q in MustLead(routes, sel, limit, k, d)
      ensures q in paths - {PathOf(routes, d)}
    {
      LeaderIsListed(routes, sel, limit, size, out, k, i, q);
    }
    SubsetSize(MustLead(routes, sel, limit, k, d), paths - {PathOf(routes, d)});
  }

  lemma LeaderIsListed(routes: map<RouteKey, Route>, sel: RouteKey, limit: int, size: nat, out: seq<RouteKey>, k: RouteKey, i: nat,
                       q: PathId)
    requires sel in routes && SoundExport(routes, sel, limit, size, out) && Eligible(routes, sel, limit, k) && k !in out
    requires 1 <= i < |out| && out[i] in Rivals(routes, sel, limit, k) && q in MustLead(routes, sel, limit, k, out[i])
    ensures q in PathsOf(routes, out[1..]) && q != PathOf(routes, out[i])
  {
    hide RouteLess, Usable, SameForwardingPath, PathOf;
    var d, rivals := out[i], Rivals(routes, sel, limit, k);
    RouteLessIsWeakOrder(routes[d], routes[d], routes[d]);
    var e :| e in rivals && PathOf(routes, e) == q && AllLess(routes, rivals, e, d);
    if e !in out {
      assert LeftOut(routes, sel, limit, out, size, e);
      assert RouteLess(routes[e], routes[d]);
      forall c | Eligible(routes, sel, limit, c) && SameForwardingPath(routes[c], routes[e])
        ensures !NoneWorse(routes, out, size, c)
      {
        PathOfIff(routes, c, e);
        assert c in rivals;
      }
      var c :| c in out && SameForwardingPath(routes[c], routes[e]);
      PathOfIff(routes, c, e);
      assert c != sel;
      assert c in out[1..];
    } else {
      assert e in out[1..];
    }
  }

  // ---- A crowd makes a loss ----

  /** A set of rivals that can be the kept ones: none ranks behind c, and every other path has a route that can stand behind
      them all. */
  ghost predicate Keepable(routes: map<RouteKey, Route>, sel: RouteKey, limit: int, k: RouteKey, c: RouteKey, kept: seq<RouteKey>)
    requires sel in routes && k in routes && c in routes
  {
    && ApartPaths(routes, kept)
    && (forall e | e in kept :: e in Rivals(routes, sel, limit, k) && !RouteLess(routes[c], routes[e]))
    && forall e | e in Rivals(routes, sel, limit, k) && PathOf(routes, e) !in PathsOf(routes, kept) ::
         Spare(routes, Rivals(routes, sel, limit, k), kept, e)
  }

  ghost predicate Spare(routes: map<RouteKey, Route>, rivals: set<RouteKey>, kept: seq<RouteKey>, e: RouteKey)
    requires rivals <= routes.Keys && e in routes && forall g | g in kept :: g in routes
  {
    exists f :: f in rivals && PathOf(routes, f) == PathOf(routes, e) && BehindAll(routes, kept, f)
  }

  predicate BehindAll(routes: map<RouteKey, Route>, kept: seq<RouteKey>, f: RouteKey)
    requires f in routes && forall g | g in kept :: g in routes
  {
    forall g | g in kept :: !RouteLess(routes[f], routes[g])
  }

  /** One route for each path. */
  lemma PickOnePerPath(routes: map<RouteKey, Route>, rivals: set<RouteKey>, paths: set<PathId>) returns (reps: seq<RouteKey>)
    requires rivals <= routes.Keys && forall q | q in paths :: exists e :: e in rivals && PathOf(routes, e) == q
    ensures ApartPaths(routes, reps) && PathsOf(routes, reps) == paths && forall e | e in reps :: e in rivals
  {
    hide PathOf;
    reps := [];
    var rest := paths;
    assert PathsOf(routes, reps) == {};
    while rest != {}
      invariant rest <= paths && ApartPaths(routes, reps) && PathsOf(routes, reps) == paths - rest
      invariant forall e | e in reps :: e in rivals
      decreases rest
    {
      var q :| q in rest;
      var e :| e in rivals && PathOf(routes, e) == q;
      PathsGrow(routes, reps, e);
      reps, rest := reps + [e], rest - {q};
    }
  }

  lemma PathsGrow(routes: map<RouteKey, Route>, s: seq<RouteKey>, e: RouteKey)
    requires ApartPaths(routes, s) && e in routes && PathOf(routes, e) !in PathsOf(routes, s)
    ensures ApartPaths(routes, s + [e]) && PathsOf(routes, s + [e]) == PathsOf(routes, s) + {PathOf(routes, e)}
  {
    hide PathOf;
    assert forall k :: k in s + [e] <==> k in s || k == e;
    forall i | 0 <= i < |s|
      ensures PathOf(routes, s[i]) != PathOf(routes, e)
    {
      assert s[i] in s;
    }
  }

  lemma LessThrough(a: Route, b: Route, c: Route)
    ensures RouteLess(b, c) && !RouteLess(a, c) ==> !RouteLess(a, b)
  {
    hide RouteLess;
    RouteLessIsWeakOrder(c, b, a);
    RouteLessIsWeakOrder(b, a, c);
    RouteLessIsWeakOrder(b, c, a);
  }

  lemma LeadersAreLess(routes: map<RouteKey, Route>, rivals: set<RouteKey>, reps: seq<RouteKey>, must: set<PathId>, c: RouteKey,
                       d: RouteKey)
    requires rivals <= routes.Keys && c in routes && d in routes && !RouteLess(routes[c], routes[d])
    requires must == (set e | e in rivals && AllLess(routes, rivals, e, d) :: PathOf(routes, e))
    requires forall e | e in reps :: e in rivals && PathOf(routes, e) in must
    ensures forall e | e in reps :: RouteLess(routes[e], routes[d]) && !RouteLess(routes[c], routes[e])
  {
    hide RouteLess, PathOf;
    forall e | e in reps
      ensures RouteLess(routes[e], routes[d]) && !RouteLess(routes[c], routes[e])
    {
      var x :| x in rivals && PathOf(routes, x) == PathOf(routes, e) && AllLess(routes, rivals, x, d);
      LessThrough(routes[c], routes[e], routes[d]);
    }
  }

  lemma OthersCanFollow(routes: map<RouteKey, Route>, rivals: set<RouteKey>, reps: seq<RouteKey>, d: RouteKey, e: RouteKey)
    requires rivals <= routes.Keys && d in routes && e in rivals && !AllLess(routes, rivals, e, d)
    requires forall g | g in reps :: g in routes && RouteLess(routes[g], routes[d])
    ensures Spare(routes, rivals, reps + [d], e)
  {
    hide RouteLess, PathOf;
    var f :| f in rivals && PathOf(routes, f) == PathOf(routes, e) && !RouteLess(routes[f], routes[d]);
    forall g | g in reps
      ensures !RouteLess(routes[f], routes[g])
    {
      LessThrough(routes[f], routes[g], routes[d]);
    }
    assert BehindAll(routes, reps + [d], f);
  }

  /** d and a route of each path that must stand before it. */
  lemma FirstKept(routes: map<RouteKey, Route>, sel: RouteKey, limit: int, k: RouteKey, c: RouteKey, d: RouteKey)
    returns (kept: seq<RouteKey>)
    requires Displaces(routes, sel, limit, k, c, d) && {sel, k, c, d} <= routes.Keys
    ensures Keepable(routes, sel, limit, k, c, kept) && d in kept
    ensures |kept| == |MustLead(routes, sel, limit, k, d)| + 1
  {
    hide RouteLess, Displaces, PathOf, Rivals, AllLess, Spare;
    var rivals, must := Rivals(routes, sel, limit, k), MustLead(routes, sel, limit, k, d);
    DisplacerIsRival(routes, sel, limit, k, c, d);
    RivalsAreRoutes(routes, sel, limit, k);
    NotLessThanItself(routes, rivals, d);
    var reps := PickOnePerPath(routes, rivals, must);
    PathsCount(routes, reps);
    LeadersAreLess(routes, rivals, reps, must, c, d);
    PathsGrow(routes, reps, d);
    kept := reps + [d];
    forall e | e in rivals && PathOf(routes, e) !in PathsOf(routes, kept)
      ensures Spare(routes, rivals, kept, e)
    {
      OthersCanFollow(routes, rivals, reps, d, e);
    }
  }

  lemma RivalsAreRoutes(routes: map<RouteKey, Route>, sel: RouteKey, limit: int, k: RouteKey)
    requires sel in routes && k in routes
    ensures Rivals(routes, sel, limit, k) <= routes.Keys
  {
  }

  /** No path of d has to stand before d. */
  lemma NotLessThanItself(routes: map<RouteKey, Route>, rivals: set<RouteKey>, d: RouteKey)
    requires rivals <= routes.Keys && d in rivals
    ensures forall e | e in rivals && AllLess(routes, rivals, e, d) :: PathOf(routes, e) != PathOf(routes, d)
  {
    hide RouteLess, PathOf;
    RouteLessIsWeakOrder(routes[d], routes[d], routes[d]);
  }

  lemma DisplacerIsRival(routes: map<RouteKey, Route>, sel: RouteKey, limit: int, k: RouteKey, c: RouteKey, d: RouteKey)
    requires Displaces(routes, sel, limit, k, c, d)
    ensures k in routes && c in routes && d in Rivals(routes, sel, limit, k) && !RouteLess(routes[c], routes[d])
    ensures PathOf(routes, c) == PathOf(routes, k) && PathOf(routes, k) != PathOf(routes, sel) && RouteLess(routes[k], routes[d])
  {
    hide RouteLess, Usable, SameForwardingPath, PathOf;
    PathOfIff(routes, c, k);
    PathOfIff(routes, d, k);
    PathOfIff(routes, sel, d);
    PathOfIff(routes, sel, k);
    RouteLessIsWeakOrder(routes[d], routes[d], routes[d]);
  }

  /** The best route of a set that is not empty. */
  lemma BestOf(routes: map<RouteKey, Route>, open: set<RouteKey>) returns (best: RouteKey)
    requires open != {} && open <= routes.Keys
    ensures best in open && forall e | e in open :: !RouteLess(routes[e], routes[best])
  {
    hide RouteLess;
    best :| best in open;
    var rest := open - {best};
    RouteLessIsWeakOrder(routes[best], routes[best], routes[best]);
    while rest != {}
      invariant rest <= open && best in open && forall e | e in open - rest :: !RouteLess(routes[e], routes[best])
      decreases rest
    {
      var x :| x in rest;
      RouteLessIsWeakOrder(routes[x], routes[best], routes[x]);
      if RouteLess(routes[x], routes[best]) {
        forall e | e in open - rest
          ensures !RouteLess(routes[e], routes[x])
        {
          LessThrough(routes[e], routes[x], routes[best]);
        }
        best := x;
      }
      rest := rest - {x};
    }
  }

  /** The rivals on other paths that may stand before c. */
  function Open(routes: map<RouteKey, Route>, rivals: set<RouteKey>, c: RouteKey, kept: seq<RouteKey>): set<RouteKey>
    requires rivals <= routes.Keys && c in routes && forall e | e in kept :: e in routes
  {
    set x | x in rivals && PathOf(routes, x) !in PathsOf(routes, kept) && !RouteLess(routes[c], routes[x])
  }

  lemma SomeOpen(routes: map<RouteKey, Route>, rivals: set<RouteKey>, c: RouteKey, kept: seq<RouteKey>, may: set<PathId>)
    requires rivals <= routes.Keys && c in routes && ApartPaths(routes, kept) && |kept| < |may|
    requires may == set e | e in rivals && !RouteLess(routes[c], routes[e]) :: PathOf(routes, e)
    ensures Open(routes, rivals, c, kept) != {}
  {
    hide RouteLess, PathOf;
    var paths := PathsOf(routes, kept);
    PathsCount(routes, kept);
    if may <= paths {
      SubsetSize(may, paths);
      assert false;
    }
    var q :| q in may && q !in paths;
    var x :| x in rivals && !RouteLess(routes[c], routes[x]) && PathOf(routes, x) == q;
    assert x in Open(routes, rivals, c, kept);
  }

  lemma StillSpare(routes: map<RouteKey, Route>, rivals: set<RouteKey>, c: RouteKey, kept: seq<RouteKey>, e: RouteKey, y: RouteKey)
    requires rivals <= routes.Keys && c in routes && (forall g | g in kept :: g in routes)
    requires e in Open(routes, rivals, c, kept) && forall x | x in Open(routes, rivals, c, kept) :: !RouteLess(routes[x], routes[e])
    requires y in rivals && PathOf(routes, y) !in PathsOf(routes, kept) && Spare(routes, rivals, kept, y)
    ensures Spare(routes, rivals, kept + [e], y)
  {
    hide RouteLess, PathOf;
    var f :| f in rivals && PathOf(routes, f) == PathOf(routes, y) && BehindAll(routes, kept, f);
    LessThrough(routes[c], routes[f], routes[e]);
    assert f in Open(routes, rivals, c, kept) || RouteLess(routes[c], routes[f]);
    assert BehindAll(routes, kept + [e], f);
  }

  /** As long as more paths may lead, the best route of another path can be kept too. */
  lemma MoreKept(routes: map<RouteKey, Route>, sel: RouteKey, limit: int, k: RouteKey, c: RouteKey, kept: seq<RouteKey>)
    returns (e: RouteKey)
    requires {sel, k, c} <= routes.Keys && Keepable(routes, sel, limit, k, c, kept)
    requires |kept| < |MayLead(routes, sel, limit, k, c)|
    ensures Keepable(routes, sel, limit, k, c, kept + [e])
  {
    hide RouteLess, PathOf, Rivals, Spare;
    var rivals := Rivals(routes, sel, limit, k);
    RivalsAreRoutes(routes, sel, limit, k);
    SomeOpen(routes, rivals, c, kept, MayLead(routes, sel, limit, k, c));
    e := BestOf(routes, Open(routes, rivals, c, kept));
    PathsGrow(routes, kept, e);
    forall y | y in rivals && PathOf(routes, y) !in PathsOf(routes, kept + [e])
      ensures Spare(routes, rivals, kept + [e], y)
    {
      StillSpare(routes, rivals, c, kept, e, y);
    }
  }

  lemma KeptOfSize(routes: map<RouteKey, Route>, sel: RouteKey, limit: int, k: RouteKey, c: RouteKey, d: RouteKey, size: nat)
    returns (kept: seq<RouteKey>)
    requires Displaces(routes, sel, limit, k, c, d) && {sel, k, c, d} <= routes.Keys
    requires |MustLead(routes, sel, limit, k, d)| + 1 <= size <= |MayLead(routes, sel, limit, k, c)|
    ensures Keepable(routes, sel, limit, k, c, kept) && d in kept && |kept| == size
  {
    hide Keepable, Displaces, MustLead, MayLead;
    kept := FirstKept(routes, sel, limit, k, c, d);
    while |kept| < size
      invariant Keepable(routes, sel, limit, k, c, kept) && d in kept && |kept| <= size
    {
      var e := MoreKept(routes, sel, limit, k, c, kept);
      kept := kept + [e];
    }
  }

  /** The list of the selected route and the kept ones, sorted. */
  ghost predicate ListsKept(routes: map<RouteKey, Route>, sel: RouteKey, kept: seq<RouteKey>, out: seq<RouteKey>) {
    && (forall e | e in out :: e in routes) && SortedTail(routes, out) && DistinctPaths(routes, out)
    && |out| == |kept| + 1 && out[0] == sel && forall e :: e in out[1..] <==> e in kept
  }

  lemma ListKept(routes: map<RouteKey, Route>, sel: RouteKey, kept: seq<RouteKey>) returns (out: seq<RouteKey>)
    requires sel in routes && ApartPaths(routes, kept) && forall e | e in kept :: PathOf(routes, e) != PathOf(routes, sel)
    ensures ListsKept(routes, sel, kept, out)
  {
    hide RouteLess, PathOf, SameForwardingPath, SortStable;
    var sorted, all := SortStable(Order(routes), kept), [sel] + kept;
    forall i, j | 0 <= i < j < |all|
      ensures all[i] != all[j] && !SameForwardingPath(routes[all[i]], routes[all[j]])
    {
      assert i > 0 ==> all[i] == kept[i - 1];
      assert all[j] == kept[j - 1] && kept[j - 1] in kept;
      PathOfIff(routes, all[i], all[j]);
    }
    Reordered(sorted, kept);
    SortIsSorted(routes, kept);
    TailSorted(routes, sel, sorted);
    out := [sel] + sorted;
    assert multiset(all) == multiset(out);
    PermutationKeepsPaths(routes, all, out);
    assert out[1..] == sorted;
  }

  lemma BehindAllIsNoneWorse(routes: map<RouteKey, Route>, sel: RouteKey, kept: seq<RouteKey>, out: seq<RouteKey>, f: RouteKey)
    requires f in routes && ListsKept(routes, sel, kept, out) && (forall e | e in kept :: e in routes) && BehindAll(routes, kept, f)
    ensures NoneWorse(routes, out, |kept| + 1, f)
  {
    hide RouteLess, SortedTail, DistinctPaths;
    forall i | 1 <= i < |out|
      ensures !RouteLess(routes[f], routes[out[i]])
    {
      assert out[1..][i - 1] == out[i] && out[i] in out[1..];
    }
  }

  lemma KeptExplainsMissing(routes: map<RouteKey, Route>, sel: RouteKey, limit: int, k: RouteKey, c: RouteKey, kept: seq<RouteKey>,
                            out: seq<RouteKey>, m: RouteKey)
    requires {sel, k, c} <= routes.Keys && Keepable(routes, sel, limit, k, c, kept) && ListsKept(routes, sel, kept, out)
    requires Eligible(routes, sel, limit, c) && PathOf(routes, c) == PathOf(routes, k) != PathOf(routes, sel)
    requires Eligible(routes, sel, limit, m) && m !in out
    ensures LeftOut(routes, sel, limit, out, |kept| + 1, m)
  {
    hide RouteLess, PathOf, SameForwardingPath, SortedTail, DistinctPaths, Usable, NoneWorse;
    assert out[0] in out && (forall e | e in out && e != sel :: e in kept) by {
      forall e | e in out && e != sel
        ensures e in kept
      {
        var i :| 0 <= i < |out| && out[i] == e;
        assert out[1..][i - 1] == e;
      }
    }
    if PathOf(routes, m) == PathOf(routes, sel) {
      PathOfIff(routes, sel, m);
    } else if PathOf(routes, m) == PathOf(routes, k) {
      PathOfIff(routes, c, m);
      assert BehindAll(routes, kept, c);
      BehindAllIsNoneWorse(routes, sel, kept, out, c);
    } else if PathOf(routes, m) in PathsOf(routes, kept) {
      var g :| g in kept && PathOf(routes, g) == PathOf(routes, m);
      assert g in out[1..];
      PathOfIff(routes, g, m);
    } else {
      assert Spare(routes, Rivals(routes, sel, limit, k), kept, m);
      var f :| f in Rivals(routes, sel, limit, k) && PathOf(routes, f) == PathOf(routes, m) && BehindAll(routes, kept, f);
      PathOfIff(routes, f, m);
      BehindAllIsNoneWorse(routes, sel, kept, out, f);
    }
  }

  lemma KeptListIsSound(routes: map<RouteKey, Route>, sel: RouteKey, limit: int, k: RouteKey, c: RouteKey, d: RouteKey,
                        kept: seq<RouteKey>, out: seq<RouteKey>)
    requires {sel, k, c} <= routes.Keys && Keepable(routes, sel, limit, k, c, kept) && ListsKept(routes, sel, kept, out)
    requires Displaces(routes, sel, limit, k, c, d) && d in kept
    ensures SoundExport(routes, sel, limit, |kept| + 1, out) && !NothingLost(routes, sel, limit, out)
  {
    DisplacerIsRival(routes, sel, limit, k, c, d);
    KeptIsEligible(routes, sel, limit, k, c, kept, out);
    hide RouteLess, PathOf, SortedTail, DistinctPaths, Usable, SameForwardingPath, LeftOut, Keepable;
    forall m | Eligible(routes, sel, limit, m) && m !in out
      ensures LeftOut(routes, sel, limit, out, |kept| + 1, m)
    {
      KeptExplainsMissing(routes, sel, limit, k, c, kept, out, m);
    }
    KeptLosesRoute(routes, sel, limit, k, d, kept, out);
  }

  lemma KeptIsEligible(routes: map<RouteKey, Route>, sel: RouteKey, limit: int, k: RouteKey, c: RouteKey, kept: seq<RouteKey>,
                       out: seq<RouteKey>)
    requires {sel, k, c} <= routes.Keys && Keepable(routes, sel, limit, k, c, kept) && ListsKept(routes, sel, kept, out)
    requires PathOf(routes, k) != PathOf(routes, sel)
    ensures EligibleTail(routes, sel, limit, out)
    ensures k !in out && forall x | x in out :: !SameForwardingPath(routes[x], routes[k])
  {
    hide RouteLess, PathOf, SortedTail, DistinctPaths, Usable, SameForwardingPath, Spare;
    forall i | 1 <= i < |out|
      ensures out[i] in kept
    {
      assert out[1..][i - 1] == out[i] && out[i] in out[1..];
    }
    forall x | x in out
      ensures x != k && !SameForwardingPath(routes[x], routes[k])
    {
      var i :| 0 <= i < |out| && out[i] == x;
      assert i > 0 ==> x in Rivals(routes, sel, limit, k);
      PathOfIff(routes, x, k);
    }
  }

  lemma KeptLosesRoute(routes: map<RouteKey, Route>, sel: RouteKey, limit: int, k: RouteKey, d: RouteKey, kept: seq<RouteKey>,
                       out: seq<RouteKey>)
    requires ListsKept(routes, sel, kept, out) && d in kept && d in routes && Eligible(routes, sel, limit, k) && k !in out
    requires RouteLess(routes[k], routes[d]) && forall x | x in out :: !SameForwardingPath(routes[x], routes[k])
    ensures !NothingLost(routes, sel, limit, out)
  {
    hide RouteLess, SortedTail, DistinctPaths, Usable, SameForwardingPath;
    assert d in out[1..];
    var i :| 0 <= i < |out[1..]| && out[1..][i] == d;
    assert out[i + 1] == d;
    assert !Justified(routes, out, k);
  }

  // ---- The exact condition ----

  /** Nothing is lost under this limit, however the table is iterated. */
  ghost predicate NeverLosesAt(routes: map<RouteKey, Route>, sel: RouteKey, limit: int, maxPaths: int, slack: nat)
    requires sel in routes
  {
    forall order | Enumerates(order, routes.Keys) ::
      NothingLost(routes, sel, limit, ExportCandidates(routes, order, Some(sel), maxPaths, slack))
  }

  lemma OverflowLoses(routes: map<RouteKey, Route>, sel: RouteKey, limit: int, size: nat) returns (order: seq<RouteKey>)
    requires sel in routes && Overflow(routes, sel, limit, size)
    ensures Enumerates(order, routes.Keys)
    ensures !NothingLost(routes, sel, limit, Finish(routes, Collect(routes, order, sel, limit), size))
  {
    hide Displaces, MustLead, MayLead, Keepable, SoundExport, NothingLost, Collect, Finish, ListsKept;
    var k, c, d :| k in routes && c in routes && d in routes && Crowds(routes, sel, limit, size, k, c, d);
    DisplacerIsRival(routes, sel, limit, k, c, d);
    var kept := KeptOfSize(routes, sel, limit, k, c, d, size - 1);
    KeptIsApart(routes, sel, limit, k, c, kept);
    var out := ListKept(routes, sel, kept);
    KeptListIsSound(routes, sel, limit, k, c, d, kept, out);
    order := ExportSetIsComplete(routes, sel, limit, size, out);
  }

  lemma KeptIsApart(routes: map<RouteKey, Route>, sel: RouteKey, limit: int, k: RouteKey, c: RouteKey, kept: seq<RouteKey>)
    requires {sel, k, c} <= routes.Keys && Keepable(routes, sel, limit, k, c, kept)
    ensures ApartPaths(routes, kept) && forall e | e in kept :: PathOf(routes, e) != PathOf(routes, sel)
  {
    hide PathOf, RouteLess, Spare;
  }

  /** The export of a learnt selected route under the configured limit never loses a route to a worse one exactly when for no
      three eligible routes, of which c stands for the path of k and d ranks between them, the paths that must stand before d
      leave room for it and the paths that may stand before c fill the list. */
  lemma LossAtLimitIff(routes: map<RouteKey, Route>, sel: RouteKey, slack: nat, some: seq<RouteKey>, limit: int, maxPaths: int)
    requires sel in routes && !routes[sel].Local() && Enumerates(some, routes.Keys)
    requires limit == BestMetric(routes, some, routes[sel].metric) + slack
    ensures NeverLosesAt(routes, sel, limit, maxPaths, slack) <==> !Overflow(routes, sel, limit, PathLimit(maxPaths))
  {
    hide SoundExport, NothingLost, BestMetric, Crowds, Collect, Finish, PathLimit;
    var size := PathLimit(maxPaths);
    if Overflow(routes, sel, limit, size) {
      var order := OverflowLoses(routes, sel, limit, size);
      BestIgnoresOrder(routes, order, some, routes[sel].metric);
      assert ExportCandidates(routes, order, Some(sel), maxPaths, slack)
          == Finish(routes, Collect(routes, order, sel, limit), size);
    } else {
      forall order | Enumerates(order, routes.Keys)
        ensures NothingLost(routes, sel, limit, ExportCandidates(routes, order, Some(sel), maxPaths, slack))
      {
        var out := ExportCandidates(routes, order, Some(sel), maxPaths, slack);
        BestIgnoresOrder(routes, order, some, routes[sel].metric);
        ExportSetIsSound(routes, order, sel, maxPaths, slack, limit, out);
        NoOverflowNoLoss(routes, sel, limit, size, out);
      }
    }
  }

  lemma NoOverflowNoLoss(routes: map<RouteKey, Route>, sel: RouteKey, limit: int, size: nat, out: seq<RouteKey>)
    requires sel in routes && SoundExport(routes, sel, limit, size, out) && !Overflow(routes, sel, limit, size)
    ensures NothingLost(routes, sel, limit, out)
  {
    hide RouteLess, Usable, Overflow, Justified;
    forall k | Eligible(routes, sel, limit, k) && k !in out
      ensures Justified(routes, out, k)
    {
      if !Justified(routes, out, k) {
        LossCrowds(routes, sel, limit, size, out, k);
        assert false;
      }
    }
  }
}
