/** Redaction followed by merging gives a record back; preparing a stored record again changes it in known ways only. */
module Secrets {
  import opened Net
  import opened Records
  import opened Ownership
  import opened Allocation
  import opened Prepare

  /** What key and hexadecimal parsing have in common in every environment. */
  ghost predicate Lawful(env: Env) {
    && !env.validId("") && !env.hexBytes("", 20) && !env.hexBytes("", 32) && env.parseKey(CLEAR).None?
    && forall k :: env.parseKey(env.keyText(env.publicOf(k))) == Some(env.publicOf(k))
  }

  // ---- Redact, then merge ----

  lemma LastOfDistinct(peers: seq<Peer>, i: nat)
    requires i < |peers| && forall j, k | 0 <= j < k < |peers| :: peers[j].publicKey != peers[k].publicKey
    ensures LastPeer(peers, peers[i].publicKey) == Some(peers[i])
  {
    var n := |peers| - 1;
    if i < n {
      LastOfDistinct(peers[..n], i);
    }
  }

  lemma PeersComeBack(peers: seq<Peer>)
    requires forall j, k | 0 <= j < k < |peers| :: peers[j].publicKey != peers[k].publicKey
    ensures MergePeers(RedactPeers(peers), peers) == peers
  {
    forall i | 0 <= i < |peers|
      ensures MergePeer(RedactPeers(peers)[i], peers) == peers[i]
    {
      LastOfDistinct(peers, i);
    }
  }

  lemma WireGuardComesBack(env: Env, s: WireGuard)
    requires ValidWireGuard(env, s)
    ensures MergeWireGuard(s.(privateKey := "", peers := RedactPeers(s.peers)), s) == s
  {
    PeersComeBack(s.peers);
  }

  /** The same identity and revision data on both sides. */
  function Revised(t: Tunnel, generation: nat, now: nat): Tunnel { t.(generation := generation, updatedAt := now) }

  /** Merging the secrets of a valid record into its redacted copy gives the record, for all seven kinds and any
      number of peers; revision data pass through. */
  lemma RedactedComesBack(env: Env, t: Tunnel, generation: nat, now: nat)
    requires Valid(env, t)
    ensures Merge(Revised(Redact(t), generation, now), t) == Revised(t, generation, now)
    ensures SpecChosen(Redact(t))
  {
    if t.kind == WireGuardKind {
      WireGuardComesBack(env, t.spec.wireGuard.value);
    } else if t.kind == AmneziaKind {
      WireGuardComesBack(env, t.spec.amnezia.value.wg);
    } else if t.kind == XfrmIkeKind {
      IkeComesBack(env, t.spec.xfrmIke.value);
    }
  }

  lemma IkeComesBack(env: Env, s: XfrmIke)
    requires ValidXfrmIke(env, s)
    ensures MergeIke(s.(psk := Blanked(s.psk), localPrivate := Blanked(s.localPrivate)), s) == s
  {
  }

  // ---- Settled records ----

  function CanonicalKey(env: Env, s: WireGuard): WireGuard
    requires env.parseKey(s.privateKey).Some?
  {
    s.(publicKey := env.keyText(env.publicOf(env.parseKey(s.privateKey).value)))
  }

  /** What preparation still changes in a valid record: a GRE TTL of 0, the spelling of a public key, and the
      choice of unicast for Babel. */
  function SettleSpec(env: Env, t: Tunnel): Spec
    requires Valid(env, t)
  {
    var s := t.spec;
    match t.kind
    case GreKind => s.(gre := Some(s.gre.value.(ttl := Default(s.gre.value.ttl, 255))))
    case WireGuardKind => s.(wireGuard := Some(CanonicalKey(env, s.wireGuard.value)))
    case AmneziaKind => s.(amnezia := Some(s.amnezia.value.(wg := CanonicalKey(env, s.amnezia.value.wg))))
    case _ => s
  }

  function SettleBabel(env: Env, t: Tunnel): Option<Babel> {
    if NeedsFallback(env, t) then Some(t.spec.babel.value.(multicast := Some(false))) else t.spec.babel
  }

  function Settle(env: Env, t: Tunnel): Tunnel
    requires Valid(env, t)
  {
    t.(spec := SettleSpec(env, t).(babel := SettleBabel(env, t)))
  }

  predicate CanonicallyKeyed(env: Env, s: WireGuard) {
    env.parseKey(s.privateKey).Some? && s.publicKey == env.keyText(env.publicOf(env.parseKey(s.privateKey).value))
  }

  /** A record that preparation leaves alone. */
  predicate Settled(env: Env, t: Tunnel) {
    && (t.spec.gre.Some? ==> t.spec.gre.value.ttl != 0)
    && (t.spec.wireGuard.Some? ==> CanonicallyKeyed(env, t.spec.wireGuard.value))
    && (t.spec.amnezia.Some? ==> CanonicallyKeyed(env, t.spec.amnezia.value.wg))
    && !NeedsFallback(env, t)
  }

  lemma SettleIff(env: Env, t: Tunnel)
    requires Valid(env, t)
    ensures Settle(env, t).spec == t.spec <==> Settled(env, t)
  {
  }

  lemma DefaultsOfValid(env: Env, t: Tunnel, headers: seq<string>)
    requires Valid(env, t)
    ensures Defaults(env, t, headers) ==
            t.(spec := (if t.kind == GreKind then SettleSpec(env, t) else t.spec).(babel := SettleBabel(env, t)))
  {
    if t.kind == Srv6Kind {
      FilledIsIdentity(t.spec.srv6.value.sources, 0);
    }
    assert DefaultSpec(env, t, headers) == if t.kind == GreKind then SettleSpec(env, t) else t.spec;
    NeedsFallbackOf(env, t, t.(spec := DefaultSpec(env, t, headers)));
  }

  lemma NeedsFallbackOf(env: Env, t: Tunnel, d: Tunnel)
    requires d.kind == t.kind && d.spec.babel == t.spec.babel && d.spec.wireGuard == t.spec.wireGuard && d.spec.amnezia == t.spec.amnezia
    ensures NeedsFallback(env, d) <==> NeedsFallback(env, t)
  {
  }

  // ---- Preparing a valid record as an update of another ----

  /** Peers that differ in preshared keys only. */
  predicate SamePeers(a: seq<Peer>, b: seq<Peer>) {
    |a| == |b| && forall i | 0 <= i < |a| :: a[i] == b[i].(presharedKey := a[i].presharedKey)
  }

  lemma {:induction false} SameAllowedCount(a: seq<Peer>, b: seq<Peer>)
    requires SamePeers(a, b)
    ensures AllowedCount(a) == AllowedCount(b)
  {
    if a != [] {
      SameAllowedCount(a[..|a| - 1], b[..|b| - 1]);
    }
  }

  lemma SameAllowed(env: Env, a: seq<Peer>, b: seq<Peer>)
    requires SamePeers(a, b)
    ensures Allowed(a) == Allowed(b) && (HasDefaultRoute(a) <==> HasDefaultRoute(b)) && (CoversMulticast(env, a) <==> CoversMulticast(env, b))
  {
    hide Masked;
    SameAllowedWithin(env, a, b);
    SameAllowedWithin(env, b, a);
  }

  lemma SameAllowedWithin(env: Env, a: seq<Peer>, b: seq<Peer>)
    requires SamePeers(a, b)
    ensures Allowed(a) <= Allowed(b) && (HasDefaultRoute(a) ==> HasDefaultRoute(b)) && (CoversMulticast(env, a) ==> CoversMulticast(env, b))
  {
    hide Masked;
    forall p | p in a
      ensures exists q :: q in b && q.allowedIPs == p.allowedIPs
    {
      var i :| 0 <= i < |a| && a[i] == p;
      assert b[i] in b;
    }
  }

  lemma MergedWireGuardIsValid(env: Env, s: WireGuard, c: WireGuard)
    requires Lawful(env) && ValidWireGuard(env, s) && ValidWireGuard(env, c)
    ensures MergeWireGuard(s, c) == s.(peers := MergePeers(s.peers, c.peers)) && SamePeers(MergePeers(s.peers, c.peers), s.peers)
    ensures ValidWireGuard(env, MergeWireGuard(s, c))
  {
    var m := MergePeers(s.peers, c.peers);
    SameAllowedCount(m, s.peers);
    forall i | 0 <= i < |m|
      ensures ValidPeer(env, m[i])
    {
      var from := LastPeer(c.peers, s.peers[i].publicKey);
      assert from.Some? ==> ValidPeer(env, from.value);
    }
  }

  /** The spec after merging: only preshared keys of peers can have been filled in. */
  function MergedSpec(b: Spec, c: Spec, kind: Kind): Spec
    requires SpecMatches(b, kind) && SpecMatches(c, kind)
  {
    match kind
    case WireGuardKind => b.(wireGuard := Some(MergeWireGuard(b.wireGuard.value, c.wireGuard.value)))
    case AmneziaKind => b.(amnezia := Some(b.amnezia.value.(wg := MergeWireGuard(b.amnezia.value.wg, c.amnezia.value.wg))))
    case _ => b
  }

  lemma MergeOfValid(env: Env, b: Tunnel, c: Tunnel, n: Tunnel)
    requires Lawful(env) && Valid(env, b) && Valid(env, c) && b.kind == c.kind
    requires n == Revised(b, n.generation, n.updatedAt)
    ensures Merge(n, c) == n.(spec := MergedSpec(b.spec, c.spec, b.kind))
    ensures KeepPriority(Merge(n, c), c) == Merge(n, c)
  {
    if b.kind == XfrmStaticKind {
      StaticIsComplete(env, b.spec.xfrmStatic.value, c.spec.xfrmStatic.value);
    } else if b.kind == XfrmIkeKind {
      IkeIsComplete(env, b.spec.xfrmIke.value, c.spec.xfrmIke.value);
    }
  }

  lemma StaticIsComplete(env: Env, s: XfrmStatic, c: XfrmStatic)
    requires Lawful(env) && ValidXfrmStatic(env, s) && ValidXfrmStatic(env, c)
    ensures MergeStatic(s, c) == s && StaticKeys(s, None) == Some(s)
  {
  }

  lemma IkeIsComplete(env: Env, s: XfrmIke, c: XfrmIke)
    requires ValidXfrmIke(env, s) && ValidXfrmIke(env, c)
    ensures MergeIke(s, c) == s && IkeKeys(s, None) == Some(s)
  {
  }

  /** Same owner, same claims on names, interfaces, identifiers, priorities, tables and routes. */
  predicate SameFootprint(env: Env, a: Tunnel, b: Tunnel) {
    && a.id == b.id && a.name == b.name && a.iface == b.iface && XfrmIds(a) == XfrmIds(b)
    && Priorities(env, a) == Priorities(env, b) && Claims(env, a) == Claims(env, b) && Exclusive(a) == Exclusive(b)
  }

  lemma FootprintDecidesClash(env: Env, a: Tunnel, b: Tunnel, x: Tunnel)
    requires SameFootprint(env, a, b)
    ensures Clash(env, a, x) <==> Clash(env, b, x)
  {
    hide Claims, Exclusive, Priorities, XfrmIds;
  }

  lemma SameRoutes(env: Env, a: Tunnel, b: Tunnel)
    requires a.id == b.id && RoutingSpec(a).Some? && RoutingSpec(b).Some?
    requires var x, y := RoutingSpec(a).value, RoutingSpec(b).value;
             SamePeers(x.peers, y.peers) && x.routeAllowedIPs == y.routeAllowedIPs && x.routeTable == y.routeTable
    ensures Claims(env, a) == Claims(env, b)
  {
    SameAllowed(env, RoutingSpec(a).value.peers, RoutingSpec(b).value.peers);
  }

  lemma MergedIsValid(env: Env, b: Tunnel, c: Tunnel, m: Tunnel)
    requires Lawful(env) && Valid(env, b) && Valid(env, c) && b.kind == c.kind
    requires m == Revised(b, m.generation, m.updatedAt).(spec := MergedSpec(b.spec, c.spec, b.kind))
    requires m.generation > 0 && m.updatedAt >= b.createdAt
    ensures Valid(env, m) && SameFootprint(env, m, b)
  {
    if RoutingSpec(b).Some? {
      MergedRoutingIsValid(env, b, c, m);
    }
  }

  lemma MergedRoutingIsValid(env: Env, b: Tunnel, c: Tunnel, m: Tunnel)
    requires Lawful(env) && Valid(env, b) && Valid(env, c) && b.kind == c.kind && RoutingSpec(b).Some?
    requires m == Revised(b, m.generation, m.updatedAt).(spec := MergedSpec(b.spec, c.spec, b.kind))
    requires m.generation > 0 && m.updatedAt >= b.createdAt
    ensures Valid(env, m) && SameFootprint(env, m, b)
  {
    MergedWireGuardIsValid(env, RoutingSpec(b).value, RoutingSpec(c).value);
    SameAllowed(env, PeersOf(m), PeersOf(b));
    MergedFootprint(env, b, m);
    hide ValidWireGuard, CoversMulticast, MergeWireGuard, MergePeers, SameFootprint;
    assert SpecChosen(m) && ValidKind(env, m);
    assert ValidBabel(env, m);
  }

  lemma MergedFootprint(env: Env, b: Tunnel, m: Tunnel)
    requires m.id == b.id && m.name == b.name && m.iface == b.iface && m.kind == b.kind
    requires RoutingSpec(m).Some? && RoutingSpec(b).Some?
    requires m.spec.xfrmStatic == b.spec.xfrmStatic && m.spec.xfrmIke == b.spec.xfrmIke
    requires var x, y := RoutingSpec(m).value, RoutingSpec(b).value;
             SamePeers(x.peers, y.peers) && x.routeAllowedIPs == y.routeAllowedIPs && x.routeTable == y.routeTable
    ensures SameFootprint(env, m, b)
  {
    SameRoutes(env, m, b);
  }

  lemma SettledIsValid(env: Env, m: Tunnel)
    requires Lawful(env) && Valid(env, m)
    ensures Valid(env, Settle(env, m)) && SameFootprint(env, Settle(env, m), m)
  {
    var r := Settle(env, m);
    if RoutingSpec(m).Some? {
      SameRoutes(env, r, m);
    }
  }

  lemma SecretsOfValid(env: Env, m: Tunnel, headers: seq<string>)
    requires Lawful(env) && Valid(env, m)
    ensures Prepare.Secrets(env, Defaults(env, m, headers), None) == Some(Settle(env, m))
  {
    DefaultsOfValid(env, m, headers);
    if m.kind == XfrmStaticKind {
      StaticIsComplete(env, m.spec.xfrmStatic.value, m.spec.xfrmStatic.value);
    } else if m.kind == XfrmIkeKind {
      IkeIsComplete(env, m.spec.xfrmIke.value, m.spec.xfrmIke.value);
    }
  }

  /** The record b put back over its successor c at the given time. */
  function Reinstated(env: Env, b: Tunnel, c: Tunnel, now: nat): Tunnel
    requires SpecChosen(b) && SpecChosen(c) && b.kind == c.kind
  {
    var m := Revised(b, c.generation + 1, now).(spec := MergedSpec(b.spec, c.spec, b.kind));
    if Valid(env, m) then Settle(env, m) else m
  }

  /** Preparing a valid record as an update of another of its kind succeeds exactly when the clock has not gone back
      behind the creation; the result is the record with the next generation, the present time, preshared keys
      filled in where it had none, and settled. It claims what the record claims. */
  lemma PrepareUpdateOfValid(env: Env, b: Tunnel, c: Tunnel, now: nat, headers: seq<string>)
    requires Lawful(env) && Valid(env, b) && Valid(env, c)
    requires b.kind == c.kind && b.id == c.id && b.createdAt == c.createdAt
    ensures now >= b.createdAt ==> PrepareUpdate(env, b, c, now, headers) == Some(Reinstated(env, b, c, now))
    ensures now >= b.createdAt ==> SameFootprint(env, Reinstated(env, b, c, now), b) && Valid(env, Reinstated(env, b, c, now))
    ensures now < b.createdAt ==> PrepareUpdate(env, b, c, now, headers) == None
  {
    ValidChoice(env, b);
    ValidChoice(env, c);
    var m := Revised(b, c.generation + 1, now).(spec := MergedSpec(b.spec, c.spec, b.kind));
    UpdateIsCheck(env, b, c, m, headers);
    hide Valid, Settle, SameFootprint, MergedSpec, Merge, Defaults, Prepare.Secrets, KeepPriority;
    if now >= b.createdAt {
      MergedIsValid(env, b, c, m);
      SettledIsValid(env, m);
      SecretsOfValid(env, m, headers);
      FootprintsChain(env, Settle(env, m), m, b);
    } else {
      EarlyIsInvalid(env, m, headers);
    }
  }

  lemma ValidChoice(env: Env, t: Tunnel)
    requires Valid(env, t)
    ensures t.schema == SCHEMA && SpecChosen(t)
  {
  }

  lemma UpdateIsCheck(env: Env, b: Tunnel, c: Tunnel, m: Tunnel, headers: seq<string>)
    requires Lawful(env) && Valid(env, b) && Valid(env, c)
    requires b.kind == c.kind && b.id == c.id && b.createdAt == c.createdAt
    requires m == Revised(b, c.generation + 1, m.updatedAt).(spec := MergedSpec(b.spec, c.spec, b.kind))
    ensures PrepareUpdate(env, b, c, m.updatedAt, headers) == Checked(env, Prepare.Secrets(env, Defaults(env, m, headers), None))
  {
    ValidChoice(env, b);
    var n := Revised(b, c.generation + 1, m.updatedAt);
    MergeOfValid(env, b, c, n);
    hide Valid, MergedSpec, Merge, Defaults, Prepare.Secrets, KeepPriority, Checked;
  }

  lemma FootprintsChain(env: Env, a: Tunnel, b: Tunnel, c: Tunnel)
    requires SameFootprint(env, a, b) && SameFootprint(env, b, c)
    ensures SameFootprint(env, a, c)
  {
    hide XfrmIds, Priorities, Claims, Exclusive;
  }

  lemma EarlyIsInvalid(env: Env, m: Tunnel, headers: seq<string>)
    requires m.updatedAt < m.createdAt
    ensures Checked(env, Prepare.Secrets(env, Defaults(env, m, headers), None)) == None
  {
  }

  // ---- A redacted export, planned again ----

  /** tunnelDesiredEqual */
  predicate DesiredEqual(a: Tunnel, b: Tunnel) {
    a.name == b.name && a.kind == b.kind && a.iface == b.iface && a.enabled == b.enabled && a.spec == b.spec
  }

  lemma RevisedIsValid(env: Env, t: Tunnel, now: nat)
    requires Valid(env, t) && now >= t.createdAt
    ensures Valid(env, Revised(t, t.generation + 1, now)) && SameFootprint(env, Revised(t, t.generation + 1, now), t)
  {
  }

  /** The record in its next generation, settled. */
  function SettledExport(env: Env, t: Tunnel, now: nat): Tunnel
    requires Valid(env, t) && now >= t.createdAt
  {
    RevisedIsValid(env, t, now);
    Settle(env, Revised(t, t.generation + 1, now))
  }

  /** The redacted copy of a stored record is prepared as that record, settled; it is reported unchanged exactly when
      the record is settled. */
  lemma ExportIsPrepared(env: Env, t: Tunnel, now: nat, headers: seq<string>)
    requires Lawful(env) && Valid(env, t) && now >= t.createdAt
    ensures PrepareUpdate(env, Redact(t), t, now, headers) == Some(SettledExport(env, t, now))
    ensures SettledExport(env, t, now).id == t.id && (DesiredEqual(t, SettledExport(env, t, now)) <==> Settled(env, t))
  {
    RevisedIsValid(env, t, now);
    hide Valid, Settle, PrepareUpdate, Redact, DesiredEqual, Settled, SameFootprint;
    var m := Revised(t, t.generation + 1, now);
    ExportIsSettled(env, t, m, headers);
    SettledSpecOfRevised(env, t, m);
  }

  lemma SettledSpecOfRevised(env: Env, t: Tunnel, m: Tunnel)
    requires Valid(env, t) && Valid(env, m) && m == Revised(t, m.generation, m.updatedAt)
    ensures DesiredEqual(t, Settle(env, m)) <==> Settled(env, t)
    ensures Settle(env, m).id == t.id
  {
    hide Valid, SettleSpec, SettleBabel, Settled;
    SettleIff(env, m);
    SettledOfRevised(env, t, m);
  }

  lemma SettledOfRevised(env: Env, t: Tunnel, m: Tunnel)
    requires m == Revised(t, m.generation, m.updatedAt)
    ensures Settled(env, m) <==> Settled(env, t)
  {
    NeedsFallbackOf(env, t, m);
  }

  lemma ExportIsSettled(env: Env, t: Tunnel, m: Tunnel, headers: seq<string>)
    requires Lawful(env) && Valid(env, t) && m == Revised(t, t.generation + 1, m.updatedAt) && m.updatedAt >= t.createdAt
    ensures Valid(env, m) && PrepareUpdate(env, Redact(t), t, m.updatedAt, headers) == Some(Settle(env, m))
  {
    assert Valid(env, m);
    assert KeepPriority(m, t) == m;
    hide Valid, Settle, Merge, Redact, Defaults, Prepare.Secrets;
    RedactedComesBack(env, t, m.generation, m.updatedAt);
    RedactKeepsIdentity(t);
    SecretsOfValid(env, m, headers);
    SettledIsValid(env, m);
    assert Redact(t).(id := t.id, schema := SCHEMA, generation := t.generation + 1, createdAt := t.createdAt, updatedAt := m.updatedAt)
        == Revised(Redact(t), m.generation, m.updatedAt) by { ValidSchema(env, t); }
  }

  lemma ValidSchema(env: Env, t: Tunnel)
    requires Valid(env, t)
    ensures t.schema == SCHEMA
  {
  }

  lemma RedactKeepsIdentity(t: Tunnel)
    ensures Redact(t).(spec := t.spec) == t
  {
  }

  /** A redacted export prepared before the creation time of the record is an error. */
  lemma EarlyExportIsRefused(env: Env, t: Tunnel, now: nat, headers: seq<string>)
    requires Valid(env, t) && now < t.createdAt
    ensures PrepareUpdate(env, Redact(t), t, now, headers) == None
  {
    RedactedComesBack(env, t, t.generation + 1, now);
    EarlyIsInvalid(env, KeepPriority(Revised(t, t.generation + 1, now), t), headers);
  }
}
