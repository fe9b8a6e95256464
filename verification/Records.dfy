/** Tunnel records of internal/model: what is stored, and when it is valid.

    Fields that no modelled operation looks at are carried in `rest`; patterns, digests and key parsing are
    functions of the environment. */
module Records {
  import opened Net

  datatype Kind = GreKind | VxlanKind | WireGuardKind | AmneziaKind | XfrmStaticKind | XfrmIkeKind | Srv6Kind

  datatype Gre = Gre(mtu: int, ttl: int, rest: string)
  datatype Vxlan = Vxlan(mtu: int, port: int, rest: string)
  datatype Peer = Peer(publicKey: string, presharedKey: string, allowedIPs: seq<Prefix>, rest: string)
  datatype WireGuard = WireGuard(privateKey: string, publicKey: string, mtu: int, routeAllowedIPs: bool, routeTable: int,
                                 peers: seq<Peer>, rest: string)
  datatype Amnezia = Amnezia(wg: WireGuard, jc: int, jmin: int, jmax: int, h1: string, h2: string, h3: string, h4: string, rest: string)
  datatype XfrmStatic = XfrmStatic(mtu: int, ifId: U32, reqId: U32, spiIn: U32, spiOut: U32, algorithm: string,
                                   encIn: string, encOut: string, authIn: string, authOut: string, rest: string)
  datatype XfrmIke = XfrmIke(mtu: int, ifId: U32, reqId: U32, auth: string, psk: string, rpkAlgorithm: string, localPrivate: string,
                             localPublic: string, remotePublic: string, ikeProposal: string, espProposal: string,
                             startAction: string, rest: string)
  datatype Source = Source(name: string, family: string, url: string, sid: Addr, priority: int, mtu: int)
  datatype Srv6 = Srv6(table: int, rulePriority: int, refresh: int, sources: seq<Source>, rest: string)
  datatype Babel = Babel(enabled: bool, multicast: Option<bool>, rest: string)

  datatype Spec = Spec(gre: Option<Gre>, vxlan: Option<Vxlan>, wireGuard: Option<WireGuard>, amnezia: Option<Amnezia>,
                       xfrmStatic: Option<XfrmStatic>, xfrmIke: Option<XfrmIke>, srv6: Option<Srv6>,
                       babel: Option<Babel>, mptcp: Option<string>)

  datatype Tunnel = Tunnel(schema: int, id: string, generation: nat, name: string, kind: Kind, iface: string,
                           enabled: bool, spec: Spec, createdAt: nat, updatedAt: nat)

  const SCHEMA := 4
  const MAX_RECORDS := 1024
  const MAX_PEERS := 1024
  const MAX_ALLOWED_PER_PEER := 4096
  const MAX_ALLOWED := 16384
  const MAX_CLAIMS := 262144
  const MAX_SOURCES := 64
  const MAX_PRIORITY := 32765
  const MAX_TABLE := 2147483647

  const GCM := "aes-gcm-128"
  const CBC := "aes-cbc-256-hmac-sha256"
  const PSK := "psk"
  const RPK := "rpk"

  /** Patterns, key arithmetic, digests of identifiers, and the checks of unmodelled fields. A key is its 32 octets. */
  datatype Env = Env(
    validId: string -> bool,
    nameMatches: string -> bool,
    ifaceMatches: string -> bool,
    parseKey: string -> Option<string>,
    publicOf: string -> string,
    keyText: string -> string,
    hexBytes: (string, nat) -> bool,
    rpkMatches: (string, string, string) -> bool,
    digest0: string -> U32,
    digest4: string -> U32,
    digest16: string -> U16,
    coversMulticast: Prefix -> bool,
    restOk: (Kind, string) -> bool,
    sourceOk: Source -> bool,
    babelOk: string -> bool)

  // ---- Validity ----

  predicate ValidMtu(mtu: int) { 68 <= mtu <= 65535 }

  function CountSpecs(s: Spec): nat {
    (if s.gre.Some? then 1 else 0) + (if s.vxlan.Some? then 1 else 0) + (if s.wireGuard.Some? then 1 else 0)
    + (if s.amnezia.Some? then 1 else 0) + (if s.xfrmStatic.Some? then 1 else 0) + (if s.xfrmIke.Some? then 1 else 0)
    + (if s.srv6.Some? then 1 else 0)
  }

  predicate SpecMatches(s: Spec, kind: Kind) {
    match kind
    case GreKind => s.gre.Some?
    case VxlanKind => s.vxlan.Some?
    case WireGuardKind => s.wireGuard.Some?
    case AmneziaKind => s.amnezia.Some?
    case XfrmStaticKind => s.xfrmStatic.Some?
    case XfrmIkeKind => s.xfrmIke.Some?
    case Srv6Kind => s.srv6.Some?
  }

  /** validateSpecChoice */
  predicate SpecChosen(t: Tunnel) { CountSpecs(t.spec) == 1 && SpecMatches(t.spec, t.kind) }

  function AllowedCount(peers: seq<Peer>): nat {
    if peers == [] then 0 else AllowedCount(peers[..|peers| - 1]) + |peers[|peers| - 1].allowedIPs|
  }

  /** validateNetworks: valid prefixes, pairwise different once masked. */
  predicate ValidNetworks(ps: seq<Prefix>) {
    && (forall i | 0 <= i < |ps| :: ps[i].Valid())
    && forall i, j | 0 <= i < j < |ps| :: Masked(ps[i]) != Masked(ps[j])
  }

  predicate ValidPeer(env: Env, p: Peer) {
    && env.parseKey(p.publicKey).Some?
    && (p.presharedKey != "" ==> env.parseKey(p.presharedKey).Some?)
    && |p.allowedIPs| <= MAX_ALLOWED_PER_PEER && ValidNetworks(p.allowedIPs)
  }

  predicate ValidWireGuard(env: Env, s: WireGuard) {
    && |s.peers| <= MAX_PEERS && AllowedCount(s.peers) <= MAX_ALLOWED
    && env.parseKey(s.privateKey).Some? && s.privateKey != ""
    && env.parseKey(s.publicKey) == Some(env.publicOf(env.parseKey(s.privateKey).value))
    && ValidMtu(s.mtu) && 0 <= s.routeTable <= MAX_TABLE
    && (forall i | 0 <= i < |s.peers| :: ValidPeer(env, s.peers[i]))
    && (forall i, j | 0 <= i < j < |s.peers| :: s.peers[i].publicKey != s.peers[j].publicKey)
  }

  predicate ValidHeader(h: string) { h != "" && |h| <= 255 }

  predicate ValidAmnezia(env: Env, s: Amnezia) {
    && ValidWireGuard(env, s.wg) && 1 <= s.jc <= 128 && 1 <= s.jmin <= 1280 && s.jmin <= s.jmax <= 1280
    && ValidHeader(s.h1) && ValidHeader(s.h2) && ValidHeader(s.h3) && ValidHeader(s.h4)
    && s.h1 != s.h2 && s.h1 != s.h3 && s.h1 != s.h4 && s.h2 != s.h3 && s.h2 != s.h4 && s.h3 != s.h4
  }

  predicate ValidXfrmStatic(env: Env, s: XfrmStatic) {
    && ValidMtu(s.mtu) && s.ifId != 0 && s.reqId != 0 && s.spiIn >= 256 && s.spiOut >= 256
    && if s.algorithm == GCM then
         env.hexBytes(s.encIn, 20) && env.hexBytes(s.encOut, 20) && s.authIn == "" && s.authOut == ""
       else
         && s.algorithm == CBC && env.hexBytes(s.encIn, 32) && env.hexBytes(s.encOut, 32)
         && env.hexBytes(s.authIn, 32) && env.hexBytes(s.authOut, 32)
  }

  /** unicode.IsSpace */
  predicate IsSpace(c: char) {
    var u := c as int;
    9 <= u <= 13 || 8192 <= u <= 8202 || u in {32, 133, 160, 5760, 8232, 8233, 8239, 8287, 12288}
  }

  /** Something is left once blanks are trimmed. */
  predicate NotBlank(s: string) { exists i :: 0 <= i < |s| && !IsSpace(s[i]) }

  predicate ValidXfrmIke(env: Env, s: XfrmIke) {
    && ValidMtu(s.mtu) && s.ifId != 0 && s.reqId != 0
    && (if s.auth == PSK then
          |s.psk| >= 16 && s.rpkAlgorithm == "" && s.localPrivate == "" && s.localPublic == "" && s.remotePublic == ""
        else
          && s.auth == RPK && s.psk == "" && s.rpkAlgorithm == "ecdsa"
          && s.localPrivate != "" && s.localPublic != "" && s.remotePublic != ""
          && env.rpkMatches(s.localPrivate, s.localPublic, s.remotePublic))
    && NotBlank(s.ikeProposal) && NotBlank(s.espProposal) && s.startAction in {"trap", "start", "none"}
  }

  predicate ValidSrv6(env: Env, s: Srv6) {
    && 1 <= |s.sources| <= MAX_SOURCES && 1 <= s.table <= MAX_TABLE && 1 <= s.rulePriority <= MAX_PRIORITY
    && 60 <= s.refresh <= 604800
    && (forall i | 0 <= i < |s.sources| ::
          1 <= s.sources[i].priority <= MAX_PRIORITY && ValidMtu(s.sources[i].mtu) && env.sourceOk(s.sources[i]))
    && (forall i, j | 0 <= i < j < |s.sources| ::
          s.sources[i].name != s.sources[j].name && s.sources[i].priority != s.sources[j].priority)
  }

  predicate ValidKind(env: Env, t: Tunnel)
    requires SpecChosen(t)
  {
    match t.kind
    case GreKind => ValidMtu(t.spec.gre.value.mtu) && env.restOk(t.kind, t.spec.gre.value.rest)
    case VxlanKind =>
      ValidMtu(t.spec.vxlan.value.mtu) && 1 <= t.spec.vxlan.value.port <= 65535 && env.restOk(t.kind, t.spec.vxlan.value.rest)
    case WireGuardKind => ValidWireGuard(env, t.spec.wireGuard.value) && env.restOk(t.kind, t.spec.wireGuard.value.rest)
    case AmneziaKind => ValidAmnezia(env, t.spec.amnezia.value) && env.restOk(t.kind, t.spec.amnezia.value.rest)
    case XfrmStaticKind => ValidXfrmStatic(env, t.spec.xfrmStatic.value) && env.restOk(t.kind, t.spec.xfrmStatic.value.rest)
    case XfrmIkeKind => ValidXfrmIke(env, t.spec.xfrmIke.value) && env.restOk(t.kind, t.spec.xfrmIke.value.rest)
    case Srv6Kind => ValidSrv6(env, t.spec.srv6.value) && env.restOk(t.kind, t.spec.srv6.value.rest)
  }

  function PeersOf(t: Tunnel): seq<Peer> {
    if t.kind == WireGuardKind && t.spec.wireGuard.Some? then t.spec.wireGuard.value.peers
    else if t.kind == AmneziaKind && t.spec.amnezia.Some? then t.spec.amnezia.value.wg.peers
    else []
  }

  predicate CoversMulticast(env: Env, peers: seq<Peer>) {
    exists p, a :: p in peers && a in p.allowedIPs && env.coversMulticast(a)
  }

  /** BabelNeedsUnicastFallback */
  predicate NeedsFallback(env: Env, t: Tunnel) {
    && t.spec.babel.Some? && t.spec.babel.value.enabled && t.spec.babel.value.multicast.None?
    && |PeersOf(t)| <= 1 && !CoversMulticast(env, PeersOf(t))
  }

  predicate ValidBabel(env: Env, t: Tunnel) {
    t.spec.babel.Some? ==>
      && t.kind != Srv6Kind && env.babelOk(t.spec.babel.value.rest)
      && (t.kind in {WireGuardKind, AmneziaKind} ==>
            var chosen := t.spec.babel.value.multicast;
            var multicast := if chosen.Some? then chosen.value else |PeersOf(t)| <= 1 && !NeedsFallback(env, t);
            multicast ==> CoversMulticast(env, PeersOf(t)))
  }

  /** model.Validate */
  predicate Valid(env: Env, t: Tunnel) {
    && t.schema == SCHEMA && env.validId(t.id) && t.generation > 0
    && 0 < t.createdAt <= t.updatedAt
    && 1 <= |t.name| <= 64 && env.nameMatches(t.name)
    && (if t.kind == Srv6Kind then t.iface == "" else 1 <= |t.iface| <= 15 && env.ifaceMatches(t.iface))
    && SpecChosen(t) && ValidKind(env, t) && ValidBabel(env, t)
    && (t.spec.mptcp.Some? ==> t.kind != Srv6Kind)
  }
}
