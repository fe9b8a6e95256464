/** Which lists the export of a prefix can be, exactly, and when one of a given length loses a better route. */
module ExportExact {
  import opened Lists
  import opened Net
  import opened BabelTypes
  import opened SpeakerState
  import opened SpeakerProperties
  import opened ExportSet
  import opened ExportLoss

  // ---- Every sound list is the export of some order ----

  lemma SharedPathIsTransitive(a: Route, b: Route, c: Route)
    ensures SameForwardingPath(a, b) ==> SameForwardingPath(b, a)
    ensures SameForwardingPath(a, b) && SameForwardingPath(b, c) ==> SameForwardingPath(a, c)
  {
  }

  /** Distinct paths are all collected. */
  lemma {:induction false} CollectFirst(routes: map<RouteKey, Route>, sel: RouteKey, limit: int, out: seq<RouteKey>, n: nat)
    requires sel in routes && |out| > 0 && out[0] == sel && DistinctPaths(routes, out) && EligibleTail(routes, sel, limit, out)
    requires n < |out|
    ensures Collect(routes, out[1..n + 1], sel, limit) == out[..n + 1]
  {
    hide Usable, SameForwardingPath;
    var order := out[1..n + 1];
    if n == 0 {
      assert out[..1] == [sel];
    } else {
      CollectFirst(routes, sel, limit, out, n - 1);
      assert order[..n - 1] == out[1..n] && order[n - 1] == out[n];
      assert Eligible(routes, sel, limit, out[n]);
    }
  }

  /** What is collected next comes from the next part of the order. */
  lemma {:induction false} CollectNext(routes: map<RouteKey, Route>, sel: RouteKey, limit: int, a: seq<RouteKey>, b: seq<RouteKey>)
    returns (extra: seq<RouteKey>)
    requires sel in routes && forall k | k in a + b :: k in routes
    ensures Collect(routes, a + b, sel, limit) == Collect(routes, a, sel, limit) + extra && forall k | k in extra :: k in b
  {
    hide Usable, SameForwardingPath;
    if b == [] {
      assert a + b == a;
      extra := [];
    } else {
      var front, last := b[..|b| - 1], b[|b| - 1];
      assert (a + b)[..|a + b| - 1] == a + front;
      extra := CollectNext(routes, sel, limit, a, front);
      if Collect(routes, a + b, sel, limit) != Collect(routes, a + front, sel, limit) {
        extra := extra + [last];
      }
    }
  }

  /** Routes whose path is collected already add nothing. */
  lemma {:induction false} CollectNothing(routes: map<RouteKey, Route>, sel: RouteKey, limit: int, a: seq<RouteKey>,
                                          b: seq<RouteKey>)
    requires sel in routes && forall k | k in a + b :: k in routes
    requires forall k | k in b && Eligible(routes, sel, limit, k) ::
               exists c :: c in Collect(routes, a, sel, limit) && SameForwardingPath(routes[c], routes[k])
    ensures Collect(routes, a + b, sel, limit) == Collect(routes, a, sel, limit)
  {
    hide Usable, SameForwardingPath;
    if b == [] {
      assert a + b == a;
    } else {
      var front, last := b[..|b| - 1], b[|b| - 1];
      assert (a + b)[..|a + b| - 1] == a + front;
      CollectNothing(routes, sel, limit, a, front);
      assert last in b;
    }
  }

  /** The eligible routes that a full list may have cut off. */
  ghost function Behind(routes: map<RouteKey, Route>, sel: RouteKey, limit: int, size: nat, out: seq<RouteKey>): set<RouteKey>
    requires forall k | k in out :: k in routes
  {
    set k | k in routes && k !in out && Eligible(routes, sel, limit, k) && NoneWorse(routes, out, size, k)
  }

  /** The rest shares its path with one of those or with a listed route. */
  lemma RestIsRepresented(routes: map<RouteKey, Route>, sel: RouteKey, limit: int, size: nat, out: seq<RouteKey>,
                          order: seq<RouteKey>, k: RouteKey)
    requires sel in routes && SoundExport(routes, sel, limit, size, out) && Eligible(routes, sel, limit, k)
    requires k !in out && k !in Behind(routes, sel, limit, size, out)
    requires (forall c | c in order :: c in routes) && Distinct(order)
    requires forall c | c in out[1..] || c in Behind(routes, sel, limit, size, out) :: c in order
    ensures exists c :: c in Collect(routes, order, sel, limit) && SameForwardingPath(routes[c], routes[k])
  {
    hide Usable, SameForwardingPath, Collect;
    var got := Collect(routes, order, sel, limit);
    CollectInvariant(routes, order, sel, limit);
    assert LeftOut(routes, sel, limit, out, size, k);
    var c :| c in routes && SameForwardingPath(routes[c], routes[k])
             && (c == sel || (c in order && Eligible(routes, sel, limit, c)));
    if c != sel {
      var d :| d in got && (d == c || SameForwardingPath(routes[d], routes[c]));
      SharedPathIsTransitive(routes[d], routes[c], routes[k]);
    }
  }

  /** The listed routes first, then what may be behind them, then the rest. */
  lemma OrderFor(routes: map<RouteKey, Route>, sel: RouteKey, limit: int, size: nat, out: seq<RouteKey>)
    returns (order: seq<RouteKey>, b: seq<RouteKey>, rest: seq<RouteKey>)
    requires sel in routes && SoundExport(routes, sel, limit, size, out)
    ensures order == out[1..] + b + rest && Enumerates(order, routes.Keys)
    ensures Distinct(out[1..] + b) && forall k :: k in b <==> k in Behind(routes, sel, limit, size, out)
    ensures forall k | k in rest :: k !in out[1..] && k !in b
  {
    hide Usable, SameForwardingPath, RouteLess, NoneWorse, MissingExplained, SortedTail;
    var tail, behind := out[1..], Behind(routes, sel, limit, size, out);
    assert Distinct(tail);
    b := ListOf(behind);
    assert forall k | k in b :: k !in tail;
    DistinctJoin(tail, b);
    rest := ListOf(routes.Keys - AsSet(tail + b));
    assert forall k | k in rest :: k !in tail + b;
    DistinctJoin(tail + b, rest);
    order := tail + b + rest;
    forall k
      ensures k in order <==> k in routes.Keys
    {
      assert k in order <==> k in tail || k in b || k in rest;
      assert k in tail ==> k in out;
      assert k in AsSet(tail + b) <==> k in tail || k in b;
    }
  }

  lemma DistinctJoin<T(!new)>(a: seq<T>, b: seq<T>)
    requires Distinct(a) && Distinct(b) && forall x | x in b :: x !in a
    ensures Distinct(a + b)
  {
    forall i, j | 0 <= i < j < |a + b|
      ensures (a + b)[i] != (a + b)[j]
    {
      if i < |a| <= j {
        assert b[j - |a|] in b && a[i] in a;
      }
    }
  }

  lemma TailInOrder(routes: map<RouteKey, Route>, size: nat, out: seq<RouteKey>, tail: seq<RouteKey>)
    requires |out| > 0 && tail == out[1..] && SortedTail(routes, out)
    ensures forall i, j | 0 <= i < j < |tail| :: !Order(routes)(tail[j], tail[i])
    ensures forall x, y | x in routes && NoneWorse(routes, out, size, x) && y in tail :: !Order(routes)(x, y)
  {
    hide RouteLess;
    forall i, j | 0 <= i < j < |tail|
      ensures !Order(routes)(tail[j], tail[i])
    {
      assert tail[i] == out[i + 1] && tail[j] == out[j + 1];
    }
    forall x, y | x in routes && NoneWorse(routes, out, size, x) && y in tail
      ensures !Order(routes)(x, y)
    {
      var i :| 0 <= i < |tail| && tail[i] == y;
      assert out[i + 1] == y;
    }
  }

  lemma CutBehind<T>(out: seq<T>, behind: seq<T>, size: nat)
    requires |out| <= size && (behind != [] ==> |out| == size)
    ensures Truncate(out + behind, size) == out
  {
  }

  lemma SortedTogether<T(!new)>(less: (T, T) -> bool, tail: seq<T>, extra: seq<T>) returns (behind: seq<T>)
    requires forall i, j | 0 <= i < j < |tail| :: !less(tail[j], tail[i])
    requires forall x, y | x in extra && y in tail :: !less(x, y)
    ensures SortStable(less, tail + extra) == tail + behind && |behind| == |extra|
  {
    hide SortStable;
    SortBehind(less, tail, extra);
    SortedStays(less, tail);
    behind := SortStable(less, extra);
    Reordered(behind, extra);
  }

  lemma FinishOf(routes: map<RouteKey, Route>, got: seq<RouteKey>, tail: seq<RouteKey>, size: nat, out: seq<RouteKey>)
    requires |got| > 0 && (forall k | k in got :: k in routes) && tail == SortStable(Order(routes), got[1..])
    requires out == Truncate([got[0]] + tail, size)
    ensures Finish(routes, got, size) == out
  {
    hide SortStable, Order, Truncate;
  }

  /** What is sorted behind the list, and cut, is not less than anything in it. */
  lemma FinishCuts(routes: map<RouteKey, Route>, sel: RouteKey, size: nat, out: seq<RouteKey>, extra: seq<RouteKey>)
    requires 1 <= |out| <= size && out[0] == sel && (forall k | k in out || k in extra :: k in routes)
    requires SortedTail(routes, out) && forall k | k in extra :: NoneWorse(routes, out, size, k)
    ensures (forall k | k in out + extra :: k in routes) && Finish(routes, out + extra, size) == out
  {
    hide Order, RouteLess, SortStable, Truncate, Finish, NoneWorse, SortedTail;
    var less, tail, got := Order(routes), out[1..], out + extra;
    TailInOrder(routes, size, out, tail);
    var behind := SortedTogether(less, tail, extra);
    Pieces(sel, out, tail, extra, behind);
    FullIfCut(routes, size, out, extra);
    CutBehind(out, behind, size);
    FinishOf(routes, got, tail + behind, size, out);
  }

  lemma Pieces<T>(first: T, out: seq<T>, tail: seq<T>, extra: seq<T>, behind: seq<T>)
    requires |out| > 0 && out[0] == first && tail == out[1..]
    ensures (out + extra)[1..] == tail + extra && (out + extra)[0] == first && [first] + (tail + behind) == out + behind
  {
  }

  lemma FullIfCut(routes: map<RouteKey, Route>, size: nat, out: seq<RouteKey>, extra: seq<RouteKey>)
    requires (forall k | k in out || k in extra :: k in routes) && forall k | k in extra :: NoneWorse(routes, out, size, k)
    ensures extra != [] ==> |out| == size
  {
    assert extra != [] ==> NoneWorse(routes, out, size, extra[0]);
  }

  /** Conversely to soundness: each sound list is what the export gives for some iteration order of the table. */
  lemma ExportSetIsComplete(routes: map<RouteKey, Route>, sel: RouteKey, limit: int, size: nat, out: seq<RouteKey>)
    returns (order: seq<RouteKey>)
    requires sel in routes && SoundExport(routes, sel, limit, size, out)
    ensures Enumerates(order, routes.Keys) && Finish(routes, Collect(routes, order, sel, limit), size) == out
  {
    hide Usable, SameForwardingPath, RouteLess, NoneWorse, Collect, Finish, LeftOut;
    var b, rest;
    order, b, rest := OrderFor(routes, sel, limit, size, out);
    var tail := out[1..];
    CollectFirst(routes, sel, limit, out, |out| - 1);
    assert out[1..|out| - 1 + 1] == tail && out[..|out| - 1 + 1] == out;
    assert forall k | k in tail + b + rest :: k in routes;
    assert forall k | k in tail + b :: k in routes;
    var extra := CollectNext(routes, sel, limit, tail, b);
    forall k | k in rest && Eligible(routes, sel, limit, k)
      ensures exists c :: c in Collect(routes, tail + b, sel, limit) && SameForwardingPath(routes[c], routes[k])
    {
      assert k !in out;
      RestIsRepresented(routes, sel, limit, size, out, tail + b, k);
    }
    CollectNothing(routes, sel, limit, tail + b, rest);
    FinishCuts(routes, sel, size, out, extra);
  }
}
