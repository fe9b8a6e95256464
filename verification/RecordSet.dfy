/** The whole-set check of internal/core/batch.go: one pass that records in maps who owns what. It accepts
    exactly the acceptable lists, whatever the order. */
module RecordSet {
  import opened Lists
  import opened Net
  import opened Records
  import opened Ownership

  // ---- What a set of records owns, key by key ----

  function Ids(s: set<Tunnel>): set<string> { set t | t in s :: t.id }

  function Names(s: set<Tunnel>): set<string> { set t | t in s :: t.name }

  function Ifaces(s: set<Tunnel>): set<string> { set t | t in s && t.iface != "" :: t.iface }

  function IfIds(s: set<Tunnel>): set<U32> { set t | t in s && XfrmIds(t).Some? :: XfrmIds(t).value.0 }

  function ReqIds(s: set<Tunnel>): set<U32> { set t | t in s && XfrmIds(t).Some? :: XfrmIds(t).value.1 }

  function RulePriorities(env: Env, s: set<Tunnel>): set<int> { set t, p | t in s && p in Priorities(env, t) :: p }

  function ExclusiveTables(s: set<Tunnel>): set<int> { set t, x | t in s && x in Exclusive(t) :: x }

  function AllClaims(env: Env, s: set<Tunnel>): set<Claim> { set t, c | t in s && c in Claims(env, t) :: c }

  function TablesOf(cs: set<Claim>): set<int> { set c | c in cs :: c.table }

  function UsedTables(env: Env, s: set<Tunnel>): set<int> { ExclusiveTables(s) + TablesOf(AllClaims(env, s)) }

  /** Whether t could join s, asked key by key. */
  predicate FreeKeys(env: Env, s: set<Tunnel>, t: Tunnel) {
    && t.id !in Ids(s) && t.name !in Names(s) && (t.iface != "" ==> t.iface !in Ifaces(s))
    && (XfrmIds(t).Some? ==> XfrmIds(t).value.0 !in IfIds(s) && XfrmIds(t).value.1 !in ReqIds(s))
    && (forall p | p in Priorities(env, t) :: p !in RulePriorities(env, s))
  }

  predicate FreeRoutes(env: Env, s: set<Tunnel>, t: Tunnel) {
    && Exclusive(t) !! UsedTables(env, s)
    && TablesOf(Claims(env, t)) !! ExclusiveTables(s)
    && Claims(env, t) !! AllClaims(env, s)
  }

  lemma FreeRoutesIff(env: Env, s: set<Tunnel>, t: Tunnel)
    ensures FreeRoutes(env, s, t) <==> forall r | r in s :: !SharesRoutes(env, t, r)
  {
    if FreeRoutes(env, s, t) {
      forall r | r in s
        ensures !SharesRoutes(env, t, r)
      {
        forall c | c in Claims(env, r)
          ensures c in AllClaims(env, s) && c.table in UsedTables(env, s)
        {
        }
        assert forall c | c in Claims(env, t) :: c.table in TablesOf(Claims(env, t));
        assert forall x | x in Exclusive(r) :: x in ExclusiveTables(s);
      }
    } else {
      if x :| x in Exclusive(t) && x in ExclusiveTables(s) {
        var r :| r in s && x in Exclusive(r);
        assert x in Exclusive(t) * Exclusive(r);
        assert SharesRoutes(env, t, r);
      } else if x :| x in Exclusive(t) && x in TablesOf(AllClaims(env, s)) {
        var c :| c in AllClaims(env, s) && c.table == x;
        var r :| r in s && c in Claims(env, r);
        assert SharesRoutes(env, t, r);
      } else if x :| x in TablesOf(Claims(env, t)) && x in ExclusiveTables(s) {
        var r :| r in s && x in Exclusive(r);
        var c :| c in Claims(env, t) && c.table == x;
        assert SharesRoutes(env, t, r);
      } else {
        var c :| c in Claims(env, t) && c in AllClaims(env, s);
        var r :| r in s && c in Claims(env, r);
        assert c in Claims(env, t) * Claims(env, r);
        assert SharesRoutes(env, t, r);
      }
    }
  }

  predicate SharesKeys(env: Env, a: Tunnel, b: Tunnel) {
    || a.id == b.id || a.name == b.name || (a.iface != "" && a.iface == b.iface) || SharesXfrm(a, b) || SharesPriority(env, a, b)
  }

  lemma FreeKeysIff(env: Env, s: set<Tunnel>, t: Tunnel)
    ensures FreeKeys(env, s, t) <==> forall r | r in s :: !SharesKeys(env, t, r)
  {
    if FreeKeys(env, s, t) {
      forall r | r in s
        ensures !SharesKeys(env, t, r)
      {
        assert forall p | p in Priorities(env, r) :: p in RulePriorities(env, s);
      }
    } else if p :| p in Priorities(env, t) && p in RulePriorities(env, s) {
      var r :| r in s && p in Priorities(env, r);
      assert SharesKeys(env, t, r);
    }
  }

  // ---- The check ----

  /** What the check relies on in a valid record: its kind names its spec, and XFRM identifiers are not 0. */
  predicate Registrable(t: Tunnel) {
    SpecChosen(t) && (XfrmIds(t).Some? ==> XfrmIds(t).value.0 != 0 && XfrmIds(t).value.1 != 0)
  }

  lemma ValidIsRegistrable(env: Env, t: Tunnel)
    requires Valid(env, t)
    ensures Registrable(t)
  {
  }

  ghost predicate OwnedBy<K(!new)>(m: map<K, string>, names: set<string>) { forall k | k in m :: m[k] in names }

  ghost predicate NotOwner<K(!new)>(m: map<K, string>, name: string) { forall k | k in m :: m[k] != name }

  /** m' is m with more keys, all owned by name. */
  ghost predicate Extends<K(!new)>(m: map<K, string>, m': map<K, string>, name: string) {
    && (forall k | k in m :: k in m' && m'[k] in {m[k], name})
    && (forall k | k in m' && k !in m :: m'[k] == name)
  }

  /** The maps of the check; every key is mapped to the name of its owner. */
  class OwnerMaps {
    var ids: map<string, string>
    var names: map<string, string>
    var interfaces: map<string, string>
    var xfrmIfIds: map<U32, string>
    var xfrmReqIds: map<U32, string>
    var srv6Tables: map<int, string>
    var rulePriorities: map<int, string>
    var routeClaims: map<Claim, string>
    var exclusiveTables: map<int, string>
    var usedTables: map<int, string>
    var totalClaims: nat

    constructor ()
      ensures Tracks0(this)
    {
      ids, names, interfaces, xfrmIfIds, xfrmReqIds := map[], map[], map[], map[], map[];
      srv6Tables, rulePriorities, routeClaims, exclusiveTables, usedTables, totalClaims := map[], map[], map[], map[], map[], 0;
    }

    static ghost predicate Tracks0(m: OwnerMaps)
      reads m
    {
      && m.ids == map[] && m.names == map[] && m.interfaces == map[] && m.xfrmIfIds == map[] && m.xfrmReqIds == map[]
      && m.srv6Tables == map[] && m.rulePriorities == map[] && m.routeClaims == map[] && m.exclusiveTables == map[]
      && m.usedTables == map[] && m.totalClaims == 0
    }

    /** The maps describe the records of s, and no others. */
    ghost predicate Tracks(env: Env, s: set<Tunnel>)
      reads this
    {
      TracksKeys(env, s) && TracksRoutes(env, s)
    }

    ghost predicate TracksKeys(env: Env, s: set<Tunnel>)
      reads this
    {
      && ids.Keys == Ids(s) && names.Keys == Names(s) && interfaces.Keys == Ifaces(s)
      && xfrmIfIds.Keys == IfIds(s) && xfrmReqIds.Keys == ReqIds(s)
      && srv6Tables.Keys == ExclusiveTables(s) && rulePriorities.Keys == RulePriorities(env, s)
    }

    ghost predicate TracksRoutes(env: Env, s: set<Tunnel>)
      reads this
    {
      && exclusiveTables.Keys == ExclusiveTables(s) && OwnedBy(exclusiveTables, Names(s))
      && usedTables.Keys == UsedTables(env, s) && OwnedBy(usedTables, Names(s))
      && routeClaims.Keys == AllClaims(env, s) && OwnedBy(routeClaims, Names(s))
      && totalClaims == TotalClaims(env, s)
    }

    method RegisterIdentity(ghost s: set<Tunnel>, t: Tunnel) returns (ok: bool)
      requires ids.Keys == Ids(s) && names.Keys == Names(s) && interfaces.Keys == Ifaces(s)
      modifies this`ids, this`names, this`interfaces
      ensures ok <==> t.id !in Ids(s) && t.name !in Names(s) && (t.iface != "" ==> t.iface !in Ifaces(s))
      ensures ok ==> ids.Keys == Ids(s + {t}) && names.Keys == Names(s + {t}) && interfaces.Keys == Ifaces(s + {t})
    {
      if t.id in ids {
        return false;
      }
      ids := ids[t.id := t.name];
      if t.name in names {
        return false;
      }
      names := names[t.name := t.id];
      if t.iface != "" {
        if t.iface in interfaces {
          return false;
        }
        interfaces := interfaces[t.iface := t.name];
      }
      return true;
    }

    method RegisterTable(ghost s: set<Tunnel>, t: Tunnel) returns (ok: bool)
      requires srv6Tables.Keys == ExclusiveTables(s) && Registrable(t)
      modifies this`srv6Tables
      ensures ok <==> Exclusive(t) !! ExclusiveTables(s)
      ensures ok ==> srv6Tables.Keys == ExclusiveTables(s + {t})
    {
      if t.kind == Srv6Kind {
        var table := t.spec.srv6.value.table;
        assert Exclusive(t) == {table};
        if table in srv6Tables {
          return false;
        }
        srv6Tables := srv6Tables[table := t.name];
      } else {
        assert Exclusive(t) == {};
      }
      return true;
    }

    /** Everything but routes. */
    method RegisterKeys(env: Env, ghost s: set<Tunnel>, t: Tunnel) returns (ok: bool)
      requires TracksKeys(env, s) && Registrable(t)
      modifies this`ids, this`names, this`interfaces, this`xfrmIfIds, this`xfrmReqIds, this`srv6Tables, this`rulePriorities
      ensures ok <==> FreeKeys(env, s, t) && Exclusive(t) !! ExclusiveTables(s)
      ensures ok ==> TracksKeys(env, s + {t})
    {
      hide Priorities, XfrmIds, Ids, Names, Ifaces, IfIds, ReqIds, ExclusiveTables, RulePriorities, Registrable, Exclusive;
      ok := RegisterIdentity(s, t);
      if ok {
        ok := RegisterTable(s, t);
      }
      if ok {
        ok := RegisterXfrm(s, t);
      }
      if ok {
        ok := RegisterPriorities(env, s, t);
      }
    }

    method RegisterXfrm(ghost s: set<Tunnel>, t: Tunnel) returns (ok: bool)
      requires xfrmIfIds.Keys == IfIds(s) && xfrmReqIds.Keys == ReqIds(s) && Registrable(t)
      modifies this`xfrmIfIds, this`xfrmReqIds
      ensures ok <==> (XfrmIds(t).Some? ==> XfrmIds(t).value.0 !in IfIds(s) && XfrmIds(t).value.1 !in ReqIds(s))
      ensures ok ==> xfrmIfIds.Keys == IfIds(s + {t}) && xfrmReqIds.Keys == ReqIds(s + {t})
    {
      var ifId: U32, reqId: U32 := 0, 0;
      if t.kind == XfrmStaticKind {
        ifId, reqId := t.spec.xfrmStatic.value.ifId, t.spec.xfrmStatic.value.reqId;
      } else if t.kind == XfrmIkeKind {
        ifId, reqId := t.spec.xfrmIke.value.ifId, t.spec.xfrmIke.value.reqId;
      }
      if ifId != 0 {
        if ifId in xfrmIfIds {
          return false;
        }
        xfrmIfIds := xfrmIfIds[ifId := t.name];
      }
      if reqId != 0 {
        if reqId in xfrmReqIds {
          return false;
        }
        xfrmReqIds := xfrmReqIds[reqId := t.name];
      }
      return true;
    }

    method RegisterPriorities(env: Env, ghost s: set<Tunnel>, t: Tunnel) returns (ok: bool)
      requires rulePriorities.Keys == RulePriorities(env, s)
      modifies this`rulePriorities
      ensures ok <==> forall p | p in Priorities(env, t) :: p !in RulePriorities(env, s)
      ensures ok ==> rulePriorities.Keys == RulePriorities(env, s + {t})
    {
      var ps := Priorities(env, t);
      assert forall i, j | 0 <= i < j < |ps| :: ps[i] != ps[j];
      for i := 0 to |ps|
        invariant forall j | 0 <= j < i :: ps[j] !in RulePriorities(env, s)
        invariant rulePriorities.Keys == RulePriorities(env, s) + set j | 0 <= j < i :: ps[j]
      {
        if ps[i] in rulePriorities {
          return false;
        }
        rulePriorities := rulePriorities[ps[i] := t.name];
      }
      assert (set j | 0 <= j < |ps| :: ps[j]) == set p | p in ps;
      assert RulePriorities(env, s + {t}) == RulePriorities(env, s) + set p | p in ps;
      return true;
    }

    /** ManagedRouteClaims: every masked prefix once, in the order of first appearance. */
    method ListClaims(env: Env, t: Tunnel) returns (claims: seq<Claim>)
      ensures AsSet(claims) == Claims(env, t) && Distinct(claims)
    {
      claims := [];
      var spec := RoutingSpec(t);
      if spec.None? || !spec.value.routeAllowedIPs {
        return;
      }
      hide RouteTable, Masked;
      var table := RouteTable(env, t.id, spec.value);
      var peers := spec.value.peers;
      var seen: set<Prefix> := {};
      for i := 0 to |peers|
        invariant seen == Allowed(peers[..i])
        invariant AsSet(claims) == Tabled(table, seen) && Distinct(claims)
      {
        seen, claims := AddPeerClaims(table, peers[i].allowedIPs, seen, claims);
        AllowedGrows(peers[..i], peers[i]);
        assert peers[..i + 1] == peers[..i] + [peers[i]];
      }
      assert peers[..|peers|] == peers;
    }

    method AddPeerClaims(table: int, ips: seq<Prefix>, before: set<Prefix>, listed: seq<Claim>)
      returns (seen: set<Prefix>, claims: seq<Claim>)
      requires AsSet(listed) == Tabled(table, before) && Distinct(listed)
      ensures seen == before + MaskedSet(ips)
      ensures AsSet(claims) == Tabled(table, seen) && Distinct(claims)
    {
      hide Masked;
      seen, claims := before, listed;
      for j := 0 to |ips|
        invariant seen == before + MaskedSet(ips[..j])
        invariant AsSet(claims) == Tabled(table, seen) && Distinct(claims)
      {
        var prefix := Masked(ips[j]);
        assert ips[..j + 1] == ips[..j] + [ips[j]];
        if prefix !in seen {
          NewClaim(table, seen, claims, prefix);
          seen := seen + {prefix};
          claims := claims + [Claim(table, prefix)];
        }
      }
      assert ips[..|ips|] == ips;
    }

    method RegisterExclusive(env: Env, ghost s: set<Tunnel>, t: Tunnel) returns (ok: bool)
      requires TracksRoutes(env, s) && t.name !in Names(s)
      modifies this`exclusiveTables, this`usedTables
      ensures ok <==> Exclusive(t) !! UsedTables(env, s)
      ensures ok ==> exclusiveTables.Keys == ExclusiveTables(s) + Exclusive(t) && OwnedBy(exclusiveTables, Names(s) + {t.name})
      ensures ok ==> usedTables.Keys == UsedTables(env, s) + Exclusive(t) && OwnedBy(usedTables, Names(s) + {t.name})
      ensures ok ==> forall x | x in exclusiveTables && exclusiveTables[x] == t.name :: x in Exclusive(t)
    {
      hide Claims, AllClaims, TablesOf, ExclusiveTables, UsedTables, Names, TotalClaims;
      if t.kind == Srv6Kind && t.spec.srv6.Some? {
        var table := t.spec.srv6.value.table;
        assert Exclusive(t) == {table};
        if table in usedTables && usedTables[table] != t.name {
          assert table in Exclusive(t) * UsedTables(env, s);
          return false;
        }
        exclusiveTables := exclusiveTables[table := t.name];
        usedTables := usedTables[table := t.name];
      } else {
        assert Exclusive(t) == {};
      }
      return true;
    }

    /** One claim: refused when another record owns its table or the route itself. */
    method ClaimRoute(c: Claim, name: string) returns (ok: bool)
      modifies this`usedTables, this`routeClaims
      ensures ok <==> (c.table in exclusiveTables ==> exclusiveTables[c.table] == name)
                      && (c in old(routeClaims) ==> old(routeClaims)[c] == name)
      ensures ok ==> routeClaims == old(routeClaims)[c := name]
      ensures ok ==> usedTables == if c.table in old(usedTables) then old(usedTables) else old(usedTables)[c.table := name]
    {
      if c.table in exclusiveTables && exclusiveTables[c.table] != name {
        return false;
      }
      if c in routeClaims && routeClaims[c] != name {
        return false;
      }
      routeClaims := routeClaims[c := name];
      if c.table !in usedTables {
        usedTables := usedTables[c.table := name];
      }
      return true;
    }

    /** All claims of one record, none of which appears twice. */
    method ClaimRoutes(claims: seq<Claim>, name: string) returns (ok: bool)
      requires Distinct(claims) && NotOwner(routeClaims, name)
      requires claims != [] ==> NotOwner(exclusiveTables, name)
      modifies this`usedTables, this`routeClaims
      ensures ok <==> forall c | c in claims :: c.table !in exclusiveTables && c !in old(routeClaims)
      ensures ok ==> routeClaims.Keys == old(routeClaims).Keys + AsSet(claims)
      ensures ok ==> Extends(old(routeClaims), routeClaims, name)
      ensures ok ==> usedTables.Keys == old(usedTables).Keys + TablesOf(AsSet(claims))
      ensures ok ==> Extends(old(usedTables), usedTables, name)
    {
      hide Extends, TablesOf, AsSet, Distinct;
      NothingClaimed(old(routeClaims), name);
      NothingClaimed(old(usedTables), name);
      assert AsSet<Claim>([]) == {} && TablesOf({}) == {} by { NothingListed(); }
      for i := 0 to |claims|
        invariant forall c | c in claims[..i] :: c.table !in exclusiveTables && c !in old(routeClaims)
        invariant routeClaims.Keys == old(routeClaims).Keys + AsSet(claims[..i])
        invariant forall c | c in old(routeClaims) :: routeClaims[c] == old(routeClaims)[c]
        invariant Extends(old(routeClaims), routeClaims, name)
        invariant usedTables.Keys == old(usedTables).Keys + TablesOf(AsSet(claims[..i]))
        invariant Extends(old(usedTables), usedTables, name)
      {
        var c := claims[i];
        ClaimsStep(claims, i);
        ExtendsMore(old(routeClaims), routeClaims, c, name);
        ExtendsMore(old(usedTables), usedTables, c.table, name);
        ok := ClaimRoute(c, name);
        if !ok {
          return;
        }
      }
      assert claims[..|claims|] == claims;
      return true;
    }

    method AddTotal(env: Env, ghost s: set<Tunnel>, t: Tunnel, claims: seq<Claim>) returns (ok: bool)
      requires totalClaims == TotalClaims(env, s) && t !in s && AsSet(claims) == Claims(env, t) && Distinct(claims)
      modifies this`totalClaims
      ensures totalClaims == TotalClaims(env, s + {t}) && (ok <==> totalClaims <= MAX_CLAIMS)
    {
      hide Claims, TotalClaims, AsSet;
      DistinctSize(claims);
      TotalAdds(env, s, t);
      totalClaims := totalClaims + |claims|;
      return totalClaims <= MAX_CLAIMS;
    }

    method RegisterClaims(env: Env, ghost s: set<Tunnel>, t: Tunnel) returns (ok: bool)
      requires exclusiveTables.Keys == ExclusiveTables(s) + Exclusive(t) && (Claims(env, t) != {} ==> NotOwner(exclusiveTables, t.name))
      requires usedTables.Keys == UsedTables(env, s) + Exclusive(t) && OwnedBy(usedTables, Names(s) + {t.name})
      requires routeClaims.Keys == AllClaims(env, s) && OwnedBy(routeClaims, Names(s)) && t.name !in Names(s)
      requires totalClaims == TotalClaims(env, s) && t !in s
      requires Claims(env, t) != {} ==> Exclusive(t) == {}
      modifies this`usedTables, this`routeClaims, this`totalClaims
      ensures ok <==> TotalClaims(env, s + {t}) <= MAX_CLAIMS && TablesOf(Claims(env, t)) !! ExclusiveTables(s)
                      && Claims(env, t) !! AllClaims(env, s)
      ensures ok ==> usedTables.Keys == UsedTables(env, s) + Exclusive(t) + TablesOf(Claims(env, t))
      ensures ok ==> OwnedBy(usedTables, Names(s) + {t.name})
      ensures ok ==> routeClaims.Keys == AllClaims(env, s) + Claims(env, t) && OwnedBy(routeClaims, Names(s) + {t.name})
      ensures ok ==> totalClaims == TotalClaims(env, s + {t})
    {
      hide Claims, Exclusive, AllClaims, ExclusiveTables, UsedTables, Names, TotalClaims, Distinct, AsSet, TablesOf;
      var claims := ListClaims(env, t);
      ok := AddTotal(env, s, t, claims);
      if !ok {
        return;
      }
      EmptyClaims(claims);
      ghost var tables := ExclusiveTables(s);
      assert claims != [] ==> exclusiveTables.Keys == tables;
      FreeClaimsIff(claims, tables, AllClaims(env, s));
      ok := ClaimRoutes(claims, t.name);
      assert ok <==> forall c | c in claims :: c.table !in tables && c !in AllClaims(env, s);
    }
  }

  lemma NothingListed()
    ensures AsSet<Claim>([]) == {} && TablesOf({}) == {}
  {
  }

  lemma NothingClaimed<K(!new)>(m: map<K, string>, name: string)
    ensures Extends(m, m, name)
  {
  }

  lemma ExtendsMore<K(!new)>(m: map<K, string>, m': map<K, string>, k: K, name: string)
    requires Extends(m, m', name)
    ensures Extends(m, m'[k := name], name)
  {
  }

  lemma EmptyClaims(claims: seq<Claim>)
    ensures claims == [] <==> AsSet(claims) == {}
  {
    if claims != [] {
      assert claims[0] in AsSet(claims);
    }
  }

  lemma ClaimingRecordsOwnNoTable(env: Env, t: Tunnel)
    ensures Claims(env, t) != {} ==> Exclusive(t) == {}
  {
  }

  method RegisterRoutes(m: OwnerMaps, env: Env, ghost s: set<Tunnel>, t: Tunnel) returns (ok: bool)
    requires m.TracksRoutes(env, s) && t.name !in Names(s) && t !in s
    modifies m`exclusiveTables, m`usedTables, m`routeClaims, m`totalClaims
    ensures ok <==> FreeRoutes(env, s, t) && TotalClaims(env, s + {t}) <= MAX_CLAIMS
    ensures ok ==> m.TracksRoutes(env, s + {t})
  {
    hide Claims, Exclusive, Names, UsedTables, AllClaims, ExclusiveTables, TablesOf, TotalClaims;
    ok := m.RegisterExclusive(env, s, t);
    if !ok {
      return;
    }
    ClaimingRecordsOwnNoTable(env, t);
    OwnerOfOwn(m.exclusiveTables, t.name, Exclusive(t));
    ok := m.RegisterClaims(env, s, t);
    if ok {
      RoutesGrow(env, s, t);
    }
  }

  lemma OwnerOfOwn(m: map<int, string>, name: string, own: set<int>)
    requires forall x | x in m && m[x] == name :: x in own
    ensures own == {} ==> NotOwner(m, name)
  {
  }

  /** One record joins the pass: refused exactly when it clashes with a record seen, or the claims are too many. */
  method Register(m: OwnerMaps, env: Env, ghost s: set<Tunnel>, t: Tunnel) returns (ok: bool)
    requires m.Tracks(env, s) && Registrable(t)
    modifies m
    ensures ok <==> (forall r | r in s :: r.id != t.id && !Clash(env, t, r)) && TotalClaims(env, s + {t}) <= MAX_CLAIMS
    ensures ok ==> m.Tracks(env, s + {t})
  {
    hide Registrable, FreeRoutes, FreeKeys, Exclusive, ExclusiveTables, Clash, TotalClaims;
    FreeIff(env, s, t);
    ok := m.RegisterKeys(env, s, t);
    if ok {
      ok := RegisterRoutes(m, env, s, t);
    }
  }

  lemma FreeIff(env: Env, s: set<Tunnel>, t: Tunnel)
    ensures (forall r | r in s :: r.id != t.id && !Clash(env, t, r)) <==> FreeKeys(env, s, t) && FreeRoutes(env, s, t)
    ensures FreeRoutes(env, s, t) ==> Exclusive(t) !! ExclusiveTables(s)
    ensures FreeKeys(env, s, t) ==> t.name !in Names(s) && t !in s
  {
    hide SharesRoutes, SharesPriority, SharesXfrm, FreeRoutes;
    FreeKeysIff(env, s, t);
    FreeRoutesIff(env, s, t);
    FreeRoutesSpareTables(env, s, t);
    forall r | r in s
      ensures r.id != t.id && !Clash(env, t, r) <==> !SharesKeys(env, t, r) && !SharesRoutes(env, t, r)
    {
    }
  }

  lemma FreeRoutesSpareTables(env: Env, s: set<Tunnel>, t: Tunnel)
    ensures FreeRoutes(env, s, t) ==> Exclusive(t) !! ExclusiveTables(s)
  {
    assert ExclusiveTables(s) <= UsedTables(env, s);
  }

  lemma RoutesGrow(env: Env, s: set<Tunnel>, t: Tunnel)
    ensures Names(s + {t}) == Names(s) + {t.name} && ExclusiveTables(s + {t}) == ExclusiveTables(s) + Exclusive(t)
    ensures AllClaims(env, s + {t}) == AllClaims(env, s) + Claims(env, t)
    ensures UsedTables(env, s + {t}) == UsedTables(env, s) + Exclusive(t) + TablesOf(Claims(env, t))
  {
    hide Claims, Exclusive;
    KeysGrow(env, s, t);
    assert TablesOf(AllClaims(env, s) + Claims(env, t)) == TablesOf(AllClaims(env, s)) + TablesOf(Claims(env, t));
  }

  /** The whole-set check accepts exactly the acceptable lists: every record valid, no two in conflict, and the
      limits on records and route claims kept. */
  method ValidateRecordSet(env: Env, records: seq<Tunnel>) returns (ok: bool)
    ensures ok <==> AcceptableList(env, records)
  {
    hide Valid, Registrable, Clash, TotalClaims;
    if |records| > MAX_RECORDS {
      TooManyRecords(env, records);
      return false;
    }
    var m := new OwnerMaps();
    NothingTracked(env, m);
    for i := 0 to |records|
      invariant fresh(m) && m.Tracks(env, AsSet(records[..i]))
      invariant AcceptableList(env, records[..i])
    {
      ghost var s, t := AsSet(records[..i]), records[i];
      assert records[..i + 1] == records[..i] + [t] && AsSet(records[..i + 1]) == s + {t};
      if !Valid(env, records[i]) {
        assert t in AsSet(records);
        return false;
      }
      ValidIsRegistrable(env, t);
      ok := Register(m, env, s, records[i]);
      if !ok {
        RefusedPrefix(env, records, i);
        return;
      }
      JoinedPrefix(env, records, i);
    }
    assert records[..|records|] == records;
    return true;
  }

  lemma NothingTracked(env: Env, m: OwnerMaps)
    requires OwnerMaps.Tracks0(m)
    ensures m.Tracks(env, AsSet([])) && AcceptableList(env, [])
  {
    assert AsSet<Tunnel>([]) == {};
    assert Owned(env, {}) == {};
  }

  lemma TooManyRecords(env: Env, records: seq<Tunnel>)
    requires |records| > MAX_RECORDS
    ensures !AcceptableList(env, records)
  {
    if Distinct(records) {
      DistinctSize(records);
    }
  }

  lemma JoinedPrefix(env: Env, records: seq<Tunnel>, i: nat)
    requires i < |records| <= MAX_RECORDS && AcceptableList(env, records[..i]) && Valid(env, records[i])
    requires forall r | r in AsSet(records[..i]) :: r.id != records[i].id && !Clash(env, records[i], r)
    requires TotalClaims(env, AsSet(records[..i]) + {records[i]}) <= MAX_CLAIMS
    ensures AcceptableList(env, records[..i + 1])
  {
    hide Valid, Clash, TotalClaims, Acceptable;
    var front, t := records[..i], records[i];
    assert records[..i + 1] == front + [t] && AsSet(front + [t]) == AsSet(front) + {t};
    assert forall r | r in front :: r in AsSet(front);
    AppendDistinct(front, t);
    DistinctSize(front + [t]);
    JoinedSet(env, AsSet(front), t);
  }

  lemma JoinedSet(env: Env, s: set<Tunnel>, t: Tunnel)
    requires Acceptable(env, s) && Valid(env, t) && |s + {t}| <= MAX_RECORDS && TotalClaims(env, s + {t}) <= MAX_CLAIMS
    requires forall r | r in s :: r.id != t.id && !Clash(env, t, r)
    ensures Acceptable(env, s + {t})
  {
    hide Valid, Clash, TotalClaims;
    forall r | r in s
      ensures !Clash(env, r, t)
    {
      ClashIsSymmetric(env, t, r);
    }
  }

  lemma RefusedPrefix(env: Env, records: seq<Tunnel>, i: nat)
    requires i < |records|
    requires !(forall r | r in AsSet(records[..i]) :: r.id != records[i].id && !Clash(env, records[i], r))
             || TotalClaims(env, AsSet(records[..i]) + {records[i]}) > MAX_CLAIMS
    ensures !AcceptableList(env, records)
  {
    hide Valid, Clash, TotalClaims, Acceptable;
    if r :| r in AsSet(records[..i]) && (r.id == records[i].id || Clash(env, records[i], r)) {
      var j :| 0 <= j < i && records[j] == r;
      RefusedPair(env, records, j, i);
    } else {
      var s := AsSet(records[..i]) + {records[i]};
      assert s <= AsSet(records);
      if Acceptable(env, AsSet(records)) {
        SubsetIsAcceptable(env, s, AsSet(records));
        WithinClaims(env, s);
      }
    }
  }

  lemma RefusedPair(env: Env, records: seq<Tunnel>, j: nat, i: nat)
    requires j < i < |records| && (records[j].id == records[i].id || Clash(env, records[i], records[j]))
    ensures !AcceptableList(env, records)
  {
    hide Valid, Clash, TotalClaims;
    assert records[j] in AsSet(records) && records[i] in AsSet(records);
  }

  lemma WithinClaims(env: Env, s: set<Tunnel>)
    requires Acceptable(env, s)
    ensures TotalClaims(env, s) <= MAX_CLAIMS
  {
    hide Valid, Clash, TotalClaims;
  }

  lemma FreeClaimsIff(claims: seq<Claim>, tables: set<int>, taken: set<Claim>)
    ensures (forall c | c in claims :: c.table !in tables && c !in taken) <==>
            TablesOf(AsSet(claims)) !! tables && AsSet(claims) !! taken
  {
    if TablesOf(AsSet(claims)) !! tables && AsSet(claims) !! taken {
      forall c | c in claims
        ensures c.table !in tables && c !in taken
      {
        assert c in AsSet(claims) && c.table in TablesOf(AsSet(claims));
      }
    }
  }

  lemma ClaimsStep(claims: seq<Claim>, i: nat)
    requires i < |claims| && Distinct(claims)
    ensures AsSet(claims[..i + 1]) == AsSet(claims[..i]) + {claims[i]} && claims[i] !in AsSet(claims[..i])
    ensures claims[..i + 1] == claims[..i] + [claims[i]]
    ensures TablesOf(AsSet(claims[..i + 1])) == TablesOf(AsSet(claims[..i])) + {claims[i].table}
  {
    assert claims[..i + 1] == claims[..i] + [claims[i]];
    assert AsSet(claims[..i + 1]) == AsSet(claims[..i]) + {claims[i]};
  }

  function Tabled(table: int, ps: set<Prefix>): set<Claim> { set a | a in ps :: Claim(table, a) }

  function MaskedSet(ps: seq<Prefix>): set<Prefix> { set a | a in ps :: Masked(a) }

  lemma NewClaim(table: int, seen: set<Prefix>, claims: seq<Claim>, prefix: Prefix)
    requires AsSet(claims) == Tabled(table, seen) && Distinct(claims) && prefix !in seen
    ensures AsSet(claims + [Claim(table, prefix)]) == Tabled(table, seen + {prefix}) && Distinct(claims + [Claim(table, prefix)])
  {
    var c := Claim(table, prefix);
    assert c !in AsSet(claims);
    assert AsSet(claims + [c]) == AsSet(claims) + {c};
    assert Tabled(table, seen + {prefix}) == Tabled(table, seen) + {c};
  }

  lemma AllowedGrows(peers: seq<Peer>, p: Peer)
    ensures Allowed(peers + [p]) == Allowed(peers) + MaskedSet(p.allowedIPs)
  {
    hide Masked;
  }

  lemma KeysGrow(env: Env, s: set<Tunnel>, t: Tunnel)
    ensures Ids(s + {t}) == Ids(s) + {t.id} && Names(s + {t}) == Names(s) + {t.name}
    ensures Ifaces(s + {t}) == Ifaces(s) + if t.iface == "" then {} else {t.iface}
    ensures ExclusiveTables(s + {t}) == ExclusiveTables(s) + Exclusive(t)
    ensures AllClaims(env, s + {t}) == AllClaims(env, s) + Claims(env, t)
  {
  }
}
