/** When two records conflict, and which sets of records are accepted, in the fields of the records and in numbers. */
module Conflicts {
  import opened Lists
  import opened Net
  import opened Records
  import opened Ownership

  // ---- Routes ----

  /** The octets agree in the bits inside the length. */
  predicate AgreesAt(a: Byte, b: Byte, bits: int, i: nat) {
    var beyond := 8 * i + 8 - bits;
    if beyond <= 0 then a == b
    else if beyond >= 8 then true
    else
      var unit := if beyond == 1 then 2 else if beyond == 2 then 4 else if beyond == 3 then 8 else if beyond == 4 then 16
                  else if beyond == 5 then 32 else if beyond == 6 then 64 else 128;
      a / unit == b / unit
  }

  predicate SameOctets(a: seq<Byte>, b: seq<Byte>, bits: int) {
    |a| == |b| && forall i | 0 <= i < |a| :: AgreesAt(a[i], b[i], bits, i)
  }

  /** Two prefixes for the same destinations; invalid ones count as one. */
  predicate SameNetwork(p: Prefix, q: Prefix) {
    if p.Valid() && q.Valid() then
      && p.bits == q.bits && (p.addr.V4? <==> q.addr.V4?) && SameOctets(p.addr.Slice(), q.addr.Slice(), p.bits)
    else !p.Valid() && !q.Valid()
  }

  lemma KeptAgrees(a: Byte, b: Byte, bits: nat, i: nat)
    ensures KeepHigh(a, KeptBits(bits, i)) == KeepHigh(b, KeptBits(bits, i)) <==> AgreesAt(a, b, bits, i)
  {
    var unit := Pow2(8 - KeptBits(bits, i));
    assert unit in {1, 2, 4, 8, 16, 32, 64, 128, 256};
    if unit == 1 || unit == 256 {
    } else {
      KeepsQuotient(a, unit);
      KeepsQuotient(b, unit);
    }
  }

  lemma KeepsQuotient(a: Byte, unit: nat)
    requires unit in {2, 4, 8, 16, 32, 64, 128}
    ensures a - a % unit == unit * (a / unit)
  {
  }

  lemma MaskedAgree(p: seq<Byte>, q: seq<Byte>, bits: nat)
    ensures MaskOctets(p, bits) == MaskOctets(q, bits) <==> SameOctets(p, q, bits)
  {
    hide KeepHigh, AgreesAt, KeptBits;
    if |p| == |q| {
      forall i | 0 <= i < |p|
        ensures MaskOctets(p, bits)[i] == MaskOctets(q, bits)[i] <==> AgreesAt(p[i], q[i], bits, i)
      {
        KeptAgrees(p[i], q[i], bits, i);
      }
    }
  }

  lemma MaskedMeans(p: Prefix, q: Prefix)
    ensures Masked(p) == Masked(q) <==> SameNetwork(p, q)
  {
    hide MaskOctets, SameOctets;
    if p.Valid() && q.Valid() && p.bits == q.bits {
      MaskedAgree(p.addr.Slice(), q.addr.Slice(), p.bits);
    }
  }

  /** The WireGuard part of a WireGuard or Amnezia record. */
  predicate HasPart(t: Tunnel, w: WireGuard) {
    || (t.kind == WireGuardKind && t.spec.wireGuard == Some(w))
    || (t.kind == AmneziaKind && t.spec.amnezia.Some? && t.spec.amnezia.value.wg == w)
  }

  predicate Allows(w: WireGuard, i: nat, j: nat, p: Prefix) {
    i < |w.peers| && j < |w.peers[i].allowedIPs| && w.peers[i].allowedIPs[j] == p
  }

  /** Some peer is the way to everywhere. */
  ghost predicate TakesAll(w: WireGuard) { exists i: nat, j: nat, p :: Allows(w, i, j, p) && p.Valid() && p.bits == 0 }

  /** The configured table; without one a table of the record's own, from 51820 on, for a default route, and the main table
      otherwise. */
  ghost predicate Table(env: Env, t: Tunnel, w: WireGuard, table: int) {
    || (w.routeTable != 0 && table == w.routeTable)
    || (w.routeTable == 0 && TakesAll(w) && table == 51820 + env.digest16(t.id) % 10000)
    || (w.routeTable == 0 && !TakesAll(w) && table == 254)
  }

  /** The record installs a route to p in this table. */
  ghost predicate Installs(env: Env, t: Tunnel, table: int, p: Prefix) {
    exists w, i: nat, j: nat :: HasPart(t, w) && w.routeAllowedIPs && Allows(w, i, j, p) && Table(env, t, w, table)
  }

  lemma TableMeans(env: Env, t: Tunnel, w: WireGuard)
    ensures forall table :: Table(env, t, w, table) <==> table == RouteTable(env, t.id, w)
  {
    if TakesAll(w) {
      var i: nat, j: nat, p :| Allows(w, i, j, p) && p.Valid() && p.bits == 0;
      assert w.peers[i] in w.peers && p in w.peers[i].allowedIPs;
    }
    if HasDefaultRoute(w.peers) {
      var peer, p :| peer in w.peers && p in peer.allowedIPs && p.Valid() && p.bits == 0;
      var i :| 0 <= i < |w.peers| && w.peers[i] == peer;
      var j :| 0 <= j < |peer.allowedIPs| && peer.allowedIPs[j] == p;
      assert Allows(w, i, j, p);
    }
  }

  lemma AllowedMeans(w: WireGuard, m: Prefix)
    ensures m in Allowed(w.peers) <==> exists i: nat, j: nat, p :: Allows(w, i, j, p) && Masked(p) == m
  {
    hide Masked;
    if m in Allowed(w.peers) {
      var peer, p :| peer in w.peers && p in peer.allowedIPs && Masked(p) == m;
      var i :| 0 <= i < |w.peers| && w.peers[i] == peer;
      var j :| 0 <= j < |peer.allowedIPs| && peer.allowedIPs[j] == p;
      assert Allows(w, i, j, p);
    }
  }

  /** The claims of a record are the routes it installs. */
  lemma ClaimsMean(env: Env, t: Tunnel, c: Claim)
    ensures c in Claims(env, t) <==> exists p :: Installs(env, t, c.table, p) && Masked(p) == c.prefix
  {
    hide Masked, RouteTable, Table, Allowed, Allows;
    var s := RoutingSpec(t);
    assert forall w :: HasPart(t, w) <==> s == Some(w);
    if s.Some? {
      var w := s.value;
      TableMeans(env, t, w);
      AllowedMeans(w, c.prefix);
      if c in Claims(env, t) {
        var i: nat, j: nat, p :| Allows(w, i, j, p) && Masked(p) == c.prefix;
        assert Installs(env, t, c.table, p);
      }
    }
  }

  /** Both records install a route to the same destinations in the same table. */
  ghost predicate SameRoute(env: Env, a: Tunnel, b: Tunnel) {
    exists table, p, q :: Installs(env, a, table, p) && Installs(env, b, table, q) && SameNetwork(p, q)
  }

  /** An SRv6 record owns its table. */
  predicate Owns(t: Tunnel, table: int) { t.kind == Srv6Kind && t.spec.srv6.Some? && t.spec.srv6.value.table == table }

  /** One record installs a route in a table of the other. */
  ghost predicate Intrudes(env: Env, a: Tunnel, b: Tunnel) { exists table, p :: Installs(env, a, table, p) && Owns(b, table) }

  predicate SameOwner(a: Tunnel, b: Tunnel) {
    a.kind == Srv6Kind && b.kind == Srv6Kind && a.spec.srv6.Some? && b.spec.srv6.Some?
    && a.spec.srv6.value.table == b.spec.srv6.value.table
  }

  lemma SharedClaimMeans(env: Env, a: Tunnel, b: Tunnel)
    ensures Claims(env, a) * Claims(env, b) != {} <==> SameRoute(env, a, b)
  {
    hide Masked, Installs, Claims, SameNetwork;
    if Claims(env, a) * Claims(env, b) != {} {
      var c :| c in Claims(env, a) * Claims(env, b);
      ClaimsMean(env, a, c);
      ClaimsMean(env, b, c);
      var p :| Installs(env, a, c.table, p) && Masked(p) == c.prefix;
      var q :| Installs(env, b, c.table, q) && Masked(q) == c.prefix;
      MaskedMeans(p, q);
    }
    if SameRoute(env, a, b) {
      var table, p, q :| Installs(env, a, table, p) && Installs(env, b, table, q) && SameNetwork(p, q);
      MaskedMeans(p, q);
      var c := Claim(table, Masked(p));
      ClaimsMean(env, a, c);
      ClaimsMean(env, b, c);
      assert c in Claims(env, a) * Claims(env, b);
    }
  }

  lemma IntrusionMeans(env: Env, a: Tunnel, b: Tunnel)
    ensures (exists c :: c in Claims(env, a) && c.table in Exclusive(b)) <==> Intrudes(env, a, b)
  {
    hide Masked, Installs, Claims;
    if c :| c in Claims(env, a) && c.table in Exclusive(b) {
      ClaimsMean(env, a, c);
      var p :| Installs(env, a, c.table, p) && Masked(p) == c.prefix;
      assert Owns(b, c.table);
    }
    if Intrudes(env, a, b) {
      var table, p :| Installs(env, a, table, p) && Owns(b, table);
      ClaimsMean(env, a, Claim(table, Masked(p)));
    }
  }

  // ---- Rules and identifiers ----

  /** The record has a policy rule with this priority: one of two from 100000 on for a tunnel with peers, the record's own for
      SRv6. */
  predicate Rules(env: Env, t: Tunnel, priority: int) {
    || (t.kind in {WireGuardKind, AmneziaKind}
        && (priority == 100000 + 2 * (env.digest0(t.id) % 900000) || priority == 100001 + 2 * (env.digest0(t.id) % 900000)))
    || (t.kind == Srv6Kind && t.spec.srv6.Some? && priority == t.spec.srv6.value.rulePriority != 0)
  }

  ghost predicate SameRule(env: Env, a: Tunnel, b: Tunnel) { exists p :: Rules(env, a, p) && Rules(env, b, p) }

  lemma PrioritiesMean(env: Env, t: Tunnel, p: int)
    ensures p in Priorities(env, t) <==> Rules(env, t, p)
  {
  }

  predicate Xfrm(t: Tunnel, ifId: U32, reqId: U32) {
    if t.spec.xfrmStatic.Some? then t.spec.xfrmStatic.value.ifId == ifId && t.spec.xfrmStatic.value.reqId == reqId
    else t.spec.xfrmIke.Some? && t.spec.xfrmIke.value.ifId == ifId && t.spec.xfrmIke.value.reqId == reqId
  }

  ghost predicate SameXfrm(a: Tunnel, b: Tunnel) {
    exists i: U32, r: U32, i': U32, r': U32 :: Xfrm(a, i, r) && Xfrm(b, i', r') && (i == i' || r == r')
  }

  lemma XfrmMeans(a: Tunnel, b: Tunnel)
    ensures SharesXfrm(a, b) <==> SameXfrm(a, b)
  {
    if SharesXfrm(a, b) {
      assert Xfrm(a, XfrmIds(a).value.0, XfrmIds(a).value.1) && Xfrm(b, XfrmIds(b).value.0, XfrmIds(b).value.1);
    }
  }

  // ---- Conflicts ----

  /** What keeps two records apart. */
  ghost predicate Conflicting(env: Env, a: Tunnel, b: Tunnel) {
    || a.name == b.name || (a.iface == b.iface && |a.iface| > 0)
    || SameXfrm(a, b) || SameRule(env, a, b) || SameRoute(env, a, b) || SameOwner(a, b)
    || Intrudes(env, a, b) || Intrudes(env, b, a)
  }

  lemma ClashMeans(env: Env, a: Tunnel, b: Tunnel)
    ensures Clash(env, a, b) <==> Conflicting(env, a, b)
  {
    XfrmMeans(a, b);
    assert SharesPriority(env, a, b) <==> SameRule(env, a, b) by {
      forall p
        ensures (p in Priorities(env, a) <==> Rules(env, a, p)) && (p in Priorities(env, b) <==> Rules(env, b, p))
      {
        PrioritiesMean(env, a, p);
        PrioritiesMean(env, b, p);
      }
    }
    SharedClaimMeans(env, a, b);
    IntrusionMeans(env, a, b);
    IntrusionMeans(env, b, a);
    assert Exclusive(a) * Exclusive(b) != {} <==> SameOwner(a, b) by {
      if SameOwner(a, b) {
        assert a.spec.srv6.value.table in Exclusive(a) * Exclusive(b);
      }
    }
  }

  /** A list is accepted exactly if it has at most 1024 valid records, no two with one identifier or in conflict, and at most
      262144 routes, counted for each record. */
  lemma AcceptedMeans(env: Env, rs: seq<Tunnel>)
    ensures AcceptableList(env, rs) <==>
              && |rs| <= 1024 && (forall t | t in rs :: Valid(env, t)) && TotalClaims(env, AsSet(rs)) <= 262144
              && forall i, j | 0 <= i < j < |rs| :: rs[i].id != rs[j].id && !Conflicting(env, rs[i], rs[j])
  {
    hide Valid, Clash, Conflicting, TotalClaims;
    forall a: Tunnel, b: Tunnel
      ensures Clash(env, a, b) <==> Conflicting(env, a, b)
      ensures Clash(env, a, b) <==> Clash(env, b, a)
    {
      ClashMeans(env, a, b);
      ClashIsSymmetric(env, a, b);
    }
    if Distinct(rs) {
      DistinctSize(rs);
    }
    if forall i, j | 0 <= i < j < |rs| :: rs[i].id != rs[j].id && !Conflicting(env, rs[i], rs[j]) {
      forall a, b | a in AsSet(rs) && b in AsSet(rs) && a != b
        ensures a.id != b.id && !Clash(env, a, b)
      {
        var i :| 0 <= i < |rs| && rs[i] == a;
        var j :| 0 <= j < |rs| && rs[j] == b;
      }
    }
  }
}
