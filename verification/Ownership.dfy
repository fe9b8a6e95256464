/** Which records may stand side by side: names, interfaces, XFRM identifiers, tables, rule priorities and routes. */
module Ownership {
  import opened Lists
  import opened Net
  import opened Records

  datatype Claim = Claim(table: int, prefix: Prefix)

  const MAIN_TABLE := 254

  // ---- What a record claims ----

  function RoutingSpec(t: Tunnel): Option<WireGuard> {
    if t.kind == WireGuardKind then t.spec.wireGuard
    else if t.kind == AmneziaKind && t.spec.amnezia.Some? then Some(t.spec.amnezia.value.wg)
    else None
  }

  predicate HasDefaultRoute(peers: seq<Peer>) { exists p, a :: p in peers && a in p.allowedIPs && a.Valid() && a.bits == 0 }

  /** WireGuardRouteTable */
  function RouteTable(env: Env, id: string, s: WireGuard): int {
    if s.routeTable != 0 then s.routeTable
    else if HasDefaultRoute(s.peers) then 51820 + env.digest16(id) % 10000
    else MAIN_TABLE
  }

  function Allowed(peers: seq<Peer>): set<Prefix> { set p, a | p in peers && a in p.allowedIPs :: Masked(a) }

  /** ManagedRouteClaims, as the set it lists without repetition. */
  function Claims(env: Env, t: Tunnel): set<Claim> {
    var s := RoutingSpec(t);
    if s.None? || !s.value.routeAllowedIPs then {}
    else
      var table := RouteTable(env, t.id, s.value);
      set a | a in Allowed(s.value.peers) :: Claim(table, a)
  }

  /** ExclusiveRouteTables */
  function Exclusive(t: Tunnel): set<int> {
    if t.kind == Srv6Kind && t.spec.srv6.Some? then {t.spec.srv6.value.table} else {}
  }

  function RuleBase(env: Env, id: string): int { 100000 + (env.digest0(id) % 900000) * 2 }

  /** ManagedRulePriorities */
  function Priorities(env: Env, t: Tunnel): seq<int> {
    match t.kind
    case WireGuardKind => [RuleBase(env, t.id), RuleBase(env, t.id) + 1]
    case AmneziaKind => [RuleBase(env, t.id), RuleBase(env, t.id) + 1]
    case Srv6Kind =>
      if t.spec.srv6.Some? && t.spec.srv6.value.rulePriority != 0 then [t.spec.srv6.value.rulePriority] else []
    case _ => []
  }

  function XfrmIds(t: Tunnel): Option<(U32, U32)> {
    if t.spec.xfrmStatic.Some? then Some((t.spec.xfrmStatic.value.ifId, t.spec.xfrmStatic.value.reqId))
    else if t.spec.xfrmIke.Some? then Some((t.spec.xfrmIke.value.ifId, t.spec.xfrmIke.value.reqId))
    else None
  }

  // ---- Conflicts between two records ----

  predicate SharesXfrm(a: Tunnel, b: Tunnel) {
    && XfrmIds(a).Some? && XfrmIds(b).Some?
    && (XfrmIds(a).value.0 == XfrmIds(b).value.0 || XfrmIds(a).value.1 == XfrmIds(b).value.1)
  }

  predicate SharesPriority(env: Env, a: Tunnel, b: Tunnel) {
    exists p :: p in Priorities(env, a) && p in Priorities(env, b)
  }

  /** Both place the same route, or one places routes in a table the other owns, or both own one table. */
  predicate SharesRoutes(env: Env, a: Tunnel, b: Tunnel) {
    || Claims(env, a) * Claims(env, b) != {}
    || Exclusive(a) * Exclusive(b) != {}
    || (exists c :: c in Claims(env, a) && c.table in Exclusive(b))
    || (exists c :: c in Claims(env, b) && c.table in Exclusive(a))
  }

  /** Two records that may not be stored together. */
  predicate Clash(env: Env, a: Tunnel, b: Tunnel) {
    || a.name == b.name
    || (a.iface != "" && a.iface == b.iface)
    || SharesXfrm(a, b)
    || SharesPriority(env, a, b)
    || SharesRoutes(env, a, b)
  }

  lemma ClashIsSymmetric(env: Env, a: Tunnel, b: Tunnel)
    ensures Clash(env, a, b) <==> Clash(env, b, a)
  {
    assert Claims(env, a) * Claims(env, b) == Claims(env, b) * Claims(env, a);
    assert Exclusive(a) * Exclusive(b) == Exclusive(b) * Exclusive(a);
  }

  // ---- Sets of records ----

  function Owned(env: Env, s: set<Tunnel>): set<(Tunnel, Claim)> { set t, c | t in s && c in Claims(env, t) :: (t, c) }

  /** How many route claims the records make, a claim counting once for each record. */
  function TotalClaims(env: Env, s: set<Tunnel>): nat { |Owned(env, s)| }

  ghost predicate Disjoint(env: Env, s: set<Tunnel>) {
    forall a, b | a in s && b in s && a != b :: a.id != b.id && !Clash(env, a, b)
  }

  /** The sets of records the store may hold. */
  ghost predicate Acceptable(env: Env, s: set<Tunnel>) {
    && |s| <= MAX_RECORDS && (forall t | t in s :: Valid(env, t))
    && Disjoint(env, s) && TotalClaims(env, s) <= MAX_CLAIMS
  }

  /** Acceptance is inherited by subsets. */
  lemma SubsetIsAcceptable(env: Env, a: set<Tunnel>, b: set<Tunnel>)
    requires a <= b && Acceptable(env, b)
    ensures Acceptable(env, a)
  {
    hide Valid, Clash, Claims;
    SubsetSize(a, b);
    assert Owned(env, a) <= Owned(env, b);
    SubsetSize(Owned(env, a), Owned(env, b));
  }

  lemma PairsCount(t: Tunnel, cs: set<Claim>)
    ensures |set c | c in cs :: (t, c)| == |cs|
    decreases cs
  {
    var ps := set c | c in cs :: (t, c);
    if cs == {} {
      assert ps == {};
    } else {
      var c :| c in cs;
      PairsCount(t, cs - {c});
      assert ps == (set d | d in cs - {c} :: (t, d)) + {(t, c)};
    }
  }

  /** Adding a record adds the number of its claims. */
  lemma TotalAdds(env: Env, s: set<Tunnel>, t: Tunnel)
    requires t !in s
    ensures TotalClaims(env, s + {t}) == TotalClaims(env, s) + |Claims(env, t)|
  {
    var ps := set c | c in Claims(env, t) :: (t, c);
    assert Owned(env, s + {t}) == Owned(env, s) + ps && Owned(env, s) !! ps;
    PairsCount(t, Claims(env, t));
  }

  /** What the store asks of a candidate against the records it holds, the one it replaces excepted. */
  ghost predicate Fits(env: Env, s: set<Tunnel>, t: Tunnel) {
    && (forall r | r in s :: !Clash(env, t, r))
    && |Claims(env, t)| + TotalClaims(env, s) <= MAX_CLAIMS
  }

  /** The incremental check of a valid candidate with a new identifier decides exactly whether the whole set
      with the candidate in it is acceptable. */
  lemma FitsIffExtends(env: Env, s: set<Tunnel>, t: Tunnel)
    requires Acceptable(env, s) && Valid(env, t) && forall r | r in s :: r.id != t.id
    ensures Fits(env, s, t) && |s| < MAX_RECORDS <==> Acceptable(env, s + {t})
  {
    hide Valid, Clash, Claims, Owned;
    assert t !in s;
    TotalAdds(env, s, t);
    assert |s + {t}| == |s| + 1;
    forall r | r in s
      ensures Clash(env, t, r) <==> Clash(env, r, t)
    {
      ClashIsSymmetric(env, t, r);
    }
    if Acceptable(env, s + {t}) {
      forall r | r in s
        ensures !Clash(env, t, r)
      {
        assert r in s + {t} && t in s + {t};
      }
    }
  }

  // ---- Lists of records ----

  /** A list the whole-set check may accept: no record twice, and acceptable as a set. */
  ghost predicate AcceptableList(env: Env, s: seq<Tunnel>) { Distinct(s) && Acceptable(env, AsSet(s)) }

  /** Acceptance does not depend on the order of the list. */
  lemma OrderDoesNotMatter(env: Env, a: seq<Tunnel>, b: seq<Tunnel>)
    requires multiset(a) == multiset(b)
    ensures AcceptableList(env, a) <==> AcceptableList(env, b)
  {
    Reordered(a, b);
  }

  /** Any selection of the records of an acceptable list is acceptable, in any order. */
  lemma PartIsAcceptable(env: Env, part: seq<Tunnel>, whole: seq<Tunnel>)
    requires multiset(part) <= multiset(whole) && AcceptableList(env, whole)
    ensures AcceptableList(env, part)
  {
    DistinctIffCounts(part);
    DistinctIffCounts(whole);
    forall t | t in part
      ensures t in whole
    {
      assert t in multiset(part) && t in multiset(whole);
    }
    SubsetIsAcceptable(env, AsSet(part), AsSet(whole));
  }

  /** A candidate that the incremental check passes can be put at any place of an accepted list. */
  lemma CandidateExtendsList(env: Env, a: seq<Tunnel>, b: seq<Tunnel>, t: Tunnel)
    requires AcceptableList(env, a + b) && Valid(env, t) && forall r | r in a + b :: r.id != t.id
    ensures Fits(env, AsSet(a + b), t) && |a + b| < MAX_RECORDS <==> AcceptableList(env, a + [t] + b)
  {
    hide Valid, Clash, Claims, Owned;
    DistinctSize(a + b);
    FitsIffExtends(env, AsSet(a + b), t);
    assert multiset(a + [t] + b) == multiset(a + b + [t]);
    OrderDoesNotMatter(env, a + [t] + b, a + b + [t]);
    assert AsSet(a + b + [t]) == AsSet(a + b) + {t};
    assert t !in a + b;
    AppendDistinct(a + b, t);
  }
}
