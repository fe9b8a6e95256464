/** What preparing a record makes of its fields: what was given stays, what was left out is filled in, and when that is an error. */
module Preparation {
  import opened Net
  import opened Records
  import opened Conflicts
  import opened Allocation
  import opened Prepare
  import opened Redaction

  /** A number left out is the default. */
  predicate Chosen(given: int, default: int, r: int) { r == if given == 0 then default else given }

  /** An XFRM identifier left out is the low 31 bits of the digest, or 1 if they are all 0. */
  predicate Derived(given: U32, digest: U32, r: U32) {
    if given != 0 then r == given else if digest % 2147483648 == 0 then r == 1 else r == digest % 2147483648
  }

  /** Key material left out is drawn at random; without draws it must be there. */
  predicate Supplied<T(==)>(missing: bool, given: T, draws: Option<Draws>, drawn: Draws -> T, r: T) {
    if missing then draws.Some? && r == drawn(draws.value) else r == given
  }

  predicate HeaderGiven(given: string, headers: seq<string>, i: nat, r: string) {
    if given != "" then r == given else if i < |headers| && headers[i] != "" then r == headers[i] else r == "1"
  }

  /** The public key is always that of the private key. */
  predicate KeysReady(env: Env, n: WireGuard, draws: Option<Draws>, r: WireGuard) {
    && r == n.(privateKey := r.privateKey, publicKey := r.publicKey, mtu := r.mtu) && Chosen(n.mtu, 1420, r.mtu)
    && Supplied(n.privateKey == "", n.privateKey, draws, (d: Draws) => d.key, r.privateKey)
    && env.parseKey(r.privateKey).Some? && r.publicKey == env.keyText(env.publicOf(env.parseKey(r.privateKey).value))
  }

  predicate AmneziaReady(env: Env, n: Amnezia, headers: seq<string>, draws: Option<Draws>, r: Amnezia) {
    && r == n.(wg := r.wg, jc := r.jc, jmin := r.jmin, jmax := r.jmax, h1 := r.h1, h2 := r.h2, h3 := r.h3, h4 := r.h4)
    && KeysReady(env, n.wg, draws, r.wg)
    && Chosen(n.jc, 4, r.jc) && Chosen(n.jmin, 40, r.jmin) && Chosen(n.jmax, 1200, r.jmax)
    && HeaderGiven(n.h1, headers, 0, r.h1) && HeaderGiven(n.h2, headers, 1, r.h2)
    && HeaderGiven(n.h3, headers, 2, r.h3) && HeaderGiven(n.h4, headers, 3, r.h4)
  }

  predicate StaticReady(env: Env, id: string, n: XfrmStatic, draws: Option<Draws>, r: XfrmStatic) {
    && r == n.(mtu := r.mtu, ifId := r.ifId, reqId := r.reqId, spiIn := r.spiIn, spiOut := r.spiOut, algorithm := r.algorithm,
               encIn := r.encIn, encOut := r.encOut, authIn := r.authIn, authOut := r.authOut)
    && Chosen(n.mtu, 1400, r.mtu) && Derived(n.ifId, env.digest0(id), r.ifId) && Derived(n.reqId, env.digest4(id), r.reqId)
    && Given(n.algorithm, "aes-gcm-128", r.algorithm)
    && Supplied(n.spiIn == 0, n.spiIn, draws, (d: Draws) => d.spiIn, r.spiIn)
    && Supplied(n.spiOut == 0, n.spiOut, draws, (d: Draws) => d.spiOut, r.spiOut)
    && Supplied(n.encIn == "", n.encIn, draws, (d: Draws) => d.encIn, r.encIn)
    && Supplied(n.encOut == "", n.encOut, draws, (d: Draws) => d.encOut, r.encOut)
    && Supplied(n.authIn == "" && Separate(n), n.authIn, draws, (d: Draws) => d.authIn, r.authIn)
    && Supplied(n.authOut == "" && Separate(n), n.authOut, draws, (d: Draws) => d.authOut, r.authOut)
  }

  /** The algorithm needs keys for authentication besides. */
  predicate Separate(n: XfrmStatic) { n.algorithm == "aes-cbc-256-hmac-sha256" }

  /** A local key pair is drawn as a whole, and given as a whole. */
  predicate IkeReady(env: Env, id: string, n: XfrmIke, draws: Option<Draws>, r: XfrmIke) {
    var pair := n.auth == "rpk" && n.localPrivate == "" && n.localPublic == "";
    && r == n.(mtu := r.mtu, ifId := r.ifId, reqId := r.reqId, psk := r.psk, rpkAlgorithm := r.rpkAlgorithm,
               localPrivate := r.localPrivate, localPublic := r.localPublic, ikeProposal := r.ikeProposal,
               espProposal := r.espProposal, startAction := r.startAction)
    && Chosen(n.mtu, 1400, r.mtu) && Derived(n.ifId, env.digest0(id), r.ifId) && Derived(n.reqId, env.digest4(id), r.reqId)
    && Given(n.ikeProposal, "aes128gcm16-prfsha256-curve25519", r.ikeProposal)
    && Given(n.espProposal, "aes128gcm16", r.espProposal) && Given(n.startAction, "trap", r.startAction)
    && Supplied(n.auth == "psk" && n.psk == "", n.psk, draws, (d: Draws) => d.psk, r.psk)
    && Supplied(pair, n.localPrivate, draws, (d: Draws) => d.rpkPrivate, r.localPrivate)
    && Supplied(pair, n.localPublic, draws, (d: Draws) => d.rpkPublic, r.localPublic)
    && Supplied(pair, n.rpkAlgorithm, draws, (d: Draws) => "ecdsa", r.rpkAlgorithm)
    && (n.auth == "rpk" ==> (n.localPrivate == "" <==> n.localPublic == ""))
  }

  predicate Srv6Ready(n: Srv6, r: Srv6) {
    && r == n.(rulePriority := r.rulePriority, refresh := r.refresh, sources := r.sources)
    && Chosen(n.rulePriority, 20000, r.rulePriority) && Chosen(n.refresh, 3600, r.refresh) && r.sources == Filled(n.sources, 0)
  }

  /** Babel is enabled with its mode left open, on a link with one peer at most that cannot carry its multicast. */
  ghost predicate FallsBack(env: Env, t: Tunnel) {
    && t.spec.babel.Some? && t.spec.babel.value.enabled && t.spec.babel.value.multicast == None
    && forall w | HasPart(t, w) :: |w.peers| <= 1 && forall i: nat, j: nat, p | Allows(w, i, j, p) :: !env.coversMulticast(p)
  }

  ghost predicate BabelReady(env: Env, t: Tunnel, r: Option<Babel>) {
    r == if FallsBack(env, t) then Some(t.spec.babel.value.(multicast := Some(false))) else t.spec.babel
  }

  predicate KindReady(env: Env, t: Tunnel, headers: seq<string>, draws: Option<Draws>, r: Spec)
    requires SpecMatches(t.spec, t.kind)
  {
    var s, b := t.spec, r.babel;
    match t.kind
    case GreKind =>
      && r == s.(gre := r.gre, babel := b) && r.gre.Some?
      && r.gre.value == s.gre.value.(mtu := r.gre.value.mtu, ttl := r.gre.value.ttl)
      && Chosen(s.gre.value.mtu, 1450, r.gre.value.mtu) && Chosen(s.gre.value.ttl, 255, r.gre.value.ttl)
    case VxlanKind =>
      && r == s.(vxlan := r.vxlan, babel := b) && r.vxlan.Some?
      && r.vxlan.value == s.vxlan.value.(mtu := r.vxlan.value.mtu, port := r.vxlan.value.port)
      && Chosen(s.vxlan.value.mtu, 1450, r.vxlan.value.mtu) && Chosen(s.vxlan.value.port, 4789, r.vxlan.value.port)
    case WireGuardKind =>
      && r == s.(wireGuard := r.wireGuard, babel := b) && r.wireGuard.Some?
      && KeysReady(env, s.wireGuard.value, draws, r.wireGuard.value)
    case AmneziaKind =>
      && r == s.(amnezia := r.amnezia, babel := b) && r.amnezia.Some?
      && AmneziaReady(env, s.amnezia.value, headers, draws, r.amnezia.value)
    case XfrmStaticKind =>
      && r == s.(xfrmStatic := r.xfrmStatic, babel := b) && r.xfrmStatic.Some?
      && StaticReady(env, t.id, s.xfrmStatic.value, draws, r.xfrmStatic.value)
    case XfrmIkeKind =>
      && r == s.(xfrmIke := r.xfrmIke, babel := b) && r.xfrmIke.Some?
      && IkeReady(env, t.id, s.xfrmIke.value, draws, r.xfrmIke.value)
    case Srv6Kind => r == s.(srv6 := r.srv6, babel := b) && r.srv6.Some? && Srv6Ready(s.srv6.value, r.srv6.value)
  }

  /** r is t with everything filled in. */
  ghost predicate Ready(env: Env, t: Tunnel, headers: seq<string>, draws: Option<Draws>, r: Tunnel)
    requires SpecMatches(t.spec, t.kind)
  {
    r == t.(spec := r.spec) && BabelReady(env, t, r.spec.babel) && KindReady(env, t, headers, draws, r.spec)
  }

  lemma FallbackMeans(env: Env, t: Tunnel)
    ensures NeedsFallback(env, t) <==> FallsBack(env, t)
  {
    var w := if t.kind == WireGuardKind && t.spec.wireGuard.Some? then t.spec.wireGuard
             else if t.kind == AmneziaKind && t.spec.amnezia.Some? then Some(t.spec.amnezia.value.wg) else None;
    assert forall x :: HasPart(t, x) <==> w == Some(x);
    if CoversMulticast(env, PeersOf(t)) {
      var peer, p :| peer in PeersOf(t) && p in peer.allowedIPs && env.coversMulticast(p);
      var i :| 0 <= i < |PeersOf(t)| && PeersOf(t)[i] == peer;
      var j :| 0 <= j < |peer.allowedIPs| && peer.allowedIPs[j] == p;
      assert Allows(w.value, i, j, p);
    } else if w.Some? {
      forall i: nat, j: nat, p | Allows(w.value, i, j, p)
        ensures !env.coversMulticast(p)
      {
        assert w.value.peers[i] in PeersOf(t) && p in w.value.peers[i].allowedIPs;
      }
    }
  }

  lemma DefaultsKeepPeers(env: Env, t: Tunnel, headers: seq<string>)
    ensures var d := t.(spec := DefaultSpec(env, t, headers)); NeedsFallback(env, d) <==> NeedsFallback(env, t)
    ensures DefaultSpec(env, t, headers).babel == t.spec.babel
  {
    var d := t.(spec := DefaultSpec(env, t, headers));
    assert PeersOf(d) == PeersOf(t);
    hide CoversMulticast;
  }

  lemma KeysMean(env: Env, n: WireGuard, draws: Option<Draws>, r: WireGuard)
    ensures WithKeys(env, n.(mtu := Default(n.mtu, 1420)), draws) == Some(r) <==> KeysReady(env, n, draws, r)
  {
  }

  lemma StaticMean(env: Env, id: string, n: XfrmStatic, draws: Option<Draws>, r: XfrmStatic)
    ensures StaticKeys(n.(ifId := DefaultId(n.ifId, env.digest0(id)), reqId := DefaultId(n.reqId, env.digest4(id)),
                          mtu := Default(n.mtu, 1400), algorithm := Or(n.algorithm, GCM)), draws) == Some(r)
       <==> StaticReady(env, id, n, draws, r)
  {
  }

  lemma IkeMean(env: Env, id: string, n: XfrmIke, draws: Option<Draws>, r: XfrmIke)
    ensures IkeKeys(n.(ifId := DefaultId(n.ifId, env.digest0(id)), reqId := DefaultId(n.reqId, env.digest4(id)),
                       mtu := Default(n.mtu, 1400), ikeProposal := Or(n.ikeProposal, "aes128gcm16-prfsha256-curve25519"),
                       espProposal := Or(n.espProposal, "aes128gcm16"), startAction := Or(n.startAction, "trap")), draws) == Some(r)
       <==> IkeReady(env, id, n, draws, r)
  {
  }

  lemma AmneziaMeans(env: Env, n: Amnezia, headers: seq<string>, draws: Option<Draws>, r: Amnezia)
    ensures var d := n.(wg := n.wg.(mtu := Default(n.wg.mtu, 1420)), jc := Default(n.jc, 4), jmin := Default(n.jmin, 40),
                        jmax := Default(n.jmax, 1200), h1 := Or(n.h1, Header(headers, 0)), h2 := Or(n.h2, Header(headers, 1)),
                        h3 := Or(n.h3, Header(headers, 2)), h4 := Or(n.h4, Header(headers, 3)));
            var w := WithKeys(env, d.wg, draws);
            w.Some? && r == d.(wg := w.value) <==> AmneziaReady(env, n, headers, draws, r)
  {
    KeysMean(env, n.wg, draws, r.wg);
    var w := WithKeys(env, n.wg.(mtu := Default(n.wg.mtu, 1420)), draws);
    hide WithKeys, KeysReady;
    if w.Some? {
      KeysMean(env, n.wg, draws, w.value);
    }
  }

  lemma WireGuardSpecMeans(env: Env, t: Tunnel, headers: seq<string>, draws: Option<Draws>, b: Option<Babel>, r: Tunnel)
    requires SpecMatches(t.spec, t.kind) && t.kind == WireGuardKind
    ensures Prepare.Secrets(env, t.(spec := DefaultSpec(env, t, headers).(babel := b)), draws) == Some(r)
       <==> r == t.(spec := r.spec) && r.spec.babel == b && KindReady(env, t, headers, draws, r.spec)
  {
    hide WithKeys, StaticKeys, IkeKeys, KeysReady, StaticReady, IkeReady, AmneziaReady, DefaultId, Header;
    if r.spec.wireGuard.Some? {
      KeysMean(env, t.spec.wireGuard.value, draws, r.spec.wireGuard.value);
    }
  }

  lemma AmneziaSpecMeans(env: Env, t: Tunnel, headers: seq<string>, draws: Option<Draws>, b: Option<Babel>, r: Tunnel)
    requires SpecMatches(t.spec, t.kind) && t.kind == AmneziaKind
    ensures Prepare.Secrets(env, t.(spec := DefaultSpec(env, t, headers).(babel := b)), draws) == Some(r)
       <==> r == t.(spec := r.spec) && r.spec.babel == b && KindReady(env, t, headers, draws, r.spec)
  {
    hide WithKeys, StaticKeys, IkeKeys, KeysReady, StaticReady, IkeReady, AmneziaReady, DefaultId, Header;
    if r.spec.amnezia.Some? {
      AmneziaMeans(env, t.spec.amnezia.value, headers, draws, r.spec.amnezia.value);
    }
  }

  lemma StaticSpecMeans(env: Env, t: Tunnel, headers: seq<string>, draws: Option<Draws>, b: Option<Babel>, r: Tunnel)
    requires SpecMatches(t.spec, t.kind) && t.kind == XfrmStaticKind
    ensures Prepare.Secrets(env, t.(spec := DefaultSpec(env, t, headers).(babel := b)), draws) == Some(r)
       <==> r == t.(spec := r.spec) && r.spec.babel == b && KindReady(env, t, headers, draws, r.spec)
  {
    hide WithKeys, StaticKeys, IkeKeys, KeysReady, StaticReady, IkeReady, AmneziaReady, DefaultId, Header;
    if r.spec.xfrmStatic.Some? {
      StaticMean(env, t.id, t.spec.xfrmStatic.value, draws, r.spec.xfrmStatic.value);
    }
  }

  lemma IkeSpecMeans(env: Env, t: Tunnel, headers: seq<string>, draws: Option<Draws>, b: Option<Babel>, r: Tunnel)
    requires SpecMatches(t.spec, t.kind) && t.kind == XfrmIkeKind
    ensures Prepare.Secrets(env, t.(spec := DefaultSpec(env, t, headers).(babel := b)), draws) == Some(r)
       <==> r == t.(spec := r.spec) && r.spec.babel == b && KindReady(env, t, headers, draws, r.spec)
  {
    hide WithKeys, StaticKeys, IkeKeys, KeysReady, StaticReady, IkeReady, AmneziaReady, DefaultId, Header;
    if r.spec.xfrmIke.Some? {
      IkeMean(env, t.id, t.spec.xfrmIke.value, draws, r.spec.xfrmIke.value);
    }
  }

  lemma PlainSpecMeans(env: Env, t: Tunnel, headers: seq<string>, draws: Option<Draws>, b: Option<Babel>, r: Tunnel)
    requires SpecMatches(t.spec, t.kind) && t.kind in {GreKind, VxlanKind, Srv6Kind}
    ensures Prepare.Secrets(env, t.(spec := DefaultSpec(env, t, headers).(babel := b)), draws) == Some(r)
       <==> r == t.(spec := r.spec) && r.spec.babel == b && KindReady(env, t, headers, draws, r.spec)
  {
    hide WithKeys, StaticKeys, IkeKeys, KeysReady, StaticReady, IkeReady, AmneziaReady, DefaultId, Header;
  }

  /** Defaults and key material, for the spec of the record's kind. */
  lemma SpecMeans(env: Env, t: Tunnel, headers: seq<string>, draws: Option<Draws>, b: Option<Babel>, r: Tunnel)
    requires SpecMatches(t.spec, t.kind)
    ensures Prepare.Secrets(env, t.(spec := DefaultSpec(env, t, headers).(babel := b)), draws) == Some(r)
       <==> r == t.(spec := r.spec) && r.spec.babel == b && KindReady(env, t, headers, draws, r.spec)
  {
    hide Prepare.Secrets, DefaultSpec, KindReady;
    match t.kind
    case WireGuardKind => WireGuardSpecMeans(env, t, headers, draws, b, r);
    case AmneziaKind => AmneziaSpecMeans(env, t, headers, draws, b, r);
    case XfrmStaticKind => StaticSpecMeans(env, t, headers, draws, b, r);
    case XfrmIkeKind => IkeSpecMeans(env, t, headers, draws, b, r);
    case _ => PlainSpecMeans(env, t, headers, draws, b, r);
  }

  /** Defaults, fallback and key material together. */
  lemma FillingMeans(env: Env, t: Tunnel, headers: seq<string>, draws: Option<Draws>, r: Tunnel)
    requires SpecMatches(t.spec, t.kind)
    ensures Prepare.Secrets(env, Defaults(env, t, headers), draws) == Some(r) <==> Ready(env, t, headers, draws, r)
  {
    FallbackMeans(env, t);
    DefaultsKeepPeers(env, t, headers);
    assert NeedsFallback(env, t) ==> t.spec.babel.Some?;
    hide DefaultSpec, NeedsFallback, FallsBack, Prepare.Secrets, KindReady;
    var d := t.(spec := DefaultSpec(env, t, headers));
    var b := if NeedsFallback(env, t) then Some(t.spec.babel.value.(multicast := Some(false))) else t.spec.babel;
    assert Defaults(env, t, headers) == t.(spec := DefaultSpec(env, t, headers).(babel := b));
    SpecMeans(env, t, headers, draws, b, r);
  }

  // ---- The two operations ----

  /** A new record is made of a record of one kind with its spec: in generation 1, with the time of its creation, filled in, drawing
      what is missing, and valid; anything else is an error. */
  lemma PrepareNewMeans(env: Env, t: Tunnel, now: nat, draws: Draws, r: Tunnel)
    ensures PrepareNew(env, t, now, draws) == Some(r) <==>
              && SpecChosen(t) && Valid(env, r)
              && Ready(env, t.(id := if t.id == "" then draws.id else t.id, schema := 4, generation := 1, createdAt := now,
                               updatedAt := now), draws.headers, Some(draws), r)
  {
    hide Valid, Defaults, Prepare.Secrets, Ready;
    if SpecChosen(t) {
      var n := t.(id := if t.id == "" then draws.id else t.id, schema := 4, generation := 1, createdAt := now, updatedAt := now);
      FillingMeans(env, n, draws.headers, Some(draws), r);
    }
  }

  /** An SRv6 rule priority left out is that of the current record. */
  predicate RuleKept(m: Tunnel, current: Tunnel, k: Tunnel) {
    if m.kind == Srv6Kind && m.spec.srv6.Some? && current.spec.srv6.Some? then
      && k == m.(spec := m.spec.(srv6 := k.spec.srv6)) && k.spec.srv6.Some?
      && k.spec.srv6.value == m.spec.srv6.value.(rulePriority := k.spec.srv6.value.rulePriority)
      && Chosen(m.spec.srv6.value.rulePriority, current.spec.srv6.value.rulePriority, k.spec.srv6.value.rulePriority)
    else k == m
  }

  /** The next generation of a record: identifier and creation of the current one, secrets left out taken from it, filled in
      without drawing anything, and valid; anything else is an error. */
  lemma PrepareUpdateMeans(env: Env, next: Tunnel, current: Tunnel, now: nat, headers: seq<string>, r: Tunnel)
    ensures PrepareUpdate(env, next, current, now, headers) == Some(r) <==>
              && SpecChosen(next) && Valid(env, r)
              && exists m, k ::
                   && Merged(next.(id := current.id, schema := 4, generation := current.generation + 1,
                                   createdAt := current.createdAt, updatedAt := now), current, m)
                   && RuleKept(m, current, k) && SpecMatches(k.spec, k.kind) && Ready(env, k, headers, None, r)
  {
    hide Valid, Defaults, Prepare.Secrets, Ready, Merge, Merged;
    if SpecChosen(next) {
      var n := next.(id := current.id, schema := 4, generation := current.generation + 1, createdAt := current.createdAt,
                     updatedAt := now);
      var m := Merge(n, current);
      MergeMeans(n, current);
      MergedOnce(n, current, m, m);
      var k := KeepPriority(m, current);
      assert RuleKept(m, current, k);
      FillingMeans(env, k, headers, None, r);
      forall m', k' | Merged(n, current, m') && RuleKept(m', current, k')
        ensures m' == m && k' == k
      {
        MergedOnce(n, current, m, m');
      }
    }
  }
}
