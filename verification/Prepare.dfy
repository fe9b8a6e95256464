/** Preparing records: secrets left out are taken from the current record, defaults are filled in, key material is
    completed, and the result is validated. Redaction is the way out that merging undoes. */
module Prepare {
  import opened Net
  import opened Records
  import opened Allocation

  /** ClearSecretValue: the marker that asks for a preshared key to be removed. */
  const CLEAR := "\0TH_CLEAR_SECRET\0"

  /** Random material, should any be generated. */
  datatype Draws = Draws(id: string, key: string, headers: seq<string>, spiIn: U32, spiOut: U32, encIn: string, encOut: string,
                         authIn: string, authOut: string, psk: string, rpkPrivate: string, rpkPublic: string)

  // ---- Secrets ----

  /** The last of the current peers with this public key, as a map filled in order would keep it. */
  function LastPeer(peers: seq<Peer>, key: string): (r: Option<Peer>)
    ensures r.Some? ==> r.value in peers && r.value.publicKey == key
  {
    if peers == [] then None
    else if peers[|peers| - 1].publicKey == key then Some(peers[|peers| - 1])
    else LastPeer(peers[..|peers| - 1], key)
  }

  function MergePeer(p: Peer, current: seq<Peer>): Peer {
    if p.presharedKey == CLEAR then p.(presharedKey := "")
    else if p.presharedKey == "" && LastPeer(current, p.publicKey).Some? then
      p.(presharedKey := LastPeer(current, p.publicKey).value.presharedKey)
    else p
  }

  function MergePeers(next: seq<Peer>, current: seq<Peer>): (r: seq<Peer>)
    ensures |r| == |next| && forall i | 0 <= i < |next| :: r[i] == MergePeer(next[i], current)
  {
    seq(|next|, i requires 0 <= i < |next| => MergePeer(next[i], current))
  }

  function MergeWireGuard(n: WireGuard, c: WireGuard): WireGuard {
    n.(privateKey := if n.privateKey == "" then c.privateKey else n.privateKey, peers := MergePeers(n.peers, c.peers))
  }

  lemma LastPeerStep(peers: seq<Peer>, i: nat)
    requires i < |peers|
    ensures forall k :: LastPeer(peers[..i + 1], k) == if peers[i].publicKey == k then Some(peers[i]) else LastPeer(peers[..i], k)
  {
    var front := peers[..i + 1];
    assert front[..|front| - 1] == peers[..i];
    forall k
      ensures LastPeer(front, k) == if peers[i].publicKey == k then Some(peers[i]) else LastPeer(peers[..i], k)
    {
    }
  }

  /** mergeWireGuardSecrets */
  method MergeWireGuardSecrets(n: WireGuard, c: WireGuard) returns (r: WireGuard)
    ensures r == MergeWireGuard(n, c)
  {
    r := n;
    if r.privateKey == "" {
      r := r.(privateKey := c.privateKey);
    }
    var currentPeers: map<string, Peer> := map[];
    for i := 0 to |c.peers|
      invariant forall k :: (if k in currentPeers then Some(currentPeers[k]) else None) == LastPeer(c.peers[..i], k)
    {
      LastPeerStep(c.peers, i);
      currentPeers := currentPeers[c.peers[i].publicKey := c.peers[i]];
    }
    assert c.peers[..|c.peers|] == c.peers;
    hide LastPeer;
    var peers := n.peers;
    for i := 0 to |peers|
      invariant |peers| == |n.peers|
      invariant forall j | 0 <= j < i :: peers[j] == MergePeer(n.peers[j], c.peers)
      invariant forall j | i <= j < |peers| :: peers[j] == n.peers[j]
    {
      if peers[i].presharedKey == CLEAR {
        peers := peers[i := peers[i].(presharedKey := "")];
      } else if peers[i].presharedKey == "" {
        if peers[i].publicKey in currentPeers {
          peers := peers[i := peers[i].(presharedKey := currentPeers[peers[i].publicKey].presharedKey)];
        }
      }
    }
    assert peers == MergePeers(n.peers, c.peers);
    r := r.(peers := peers);
  }

  function Or(a: string, b: string): string { if a == "" then b else a }

  function MergeStatic(n: XfrmStatic, c: XfrmStatic): XfrmStatic {
    if n.algorithm != c.algorithm then n
    else n.(encIn := Or(n.encIn, c.encIn), encOut := Or(n.encOut, c.encOut),
            authIn := Or(n.authIn, c.authIn), authOut := Or(n.authOut, c.authOut))
  }

  function MergeIke(n: XfrmIke, c: XfrmIke): XfrmIke {
    if n.auth == PSK then
      n.(rpkAlgorithm := "", localPrivate := "", localPublic := "", remotePublic := "",
         psk := if n.psk == "" && c.auth == PSK then c.psk else n.psk)
    else if n.auth == RPK then
      if c.auth == RPK then
        n.(psk := "", localPrivate := Or(n.localPrivate, c.localPrivate), localPublic := Or(n.localPublic, c.localPublic),
           remotePublic := Or(n.remotePublic, c.remotePublic))
      else n.(psk := "")
    else n
  }

  /** MergeSecrets */
  function Merge(next: Tunnel, current: Tunnel): Tunnel {
    if next.kind != current.kind then next
    else
      var n, c := next.spec, current.spec;
      match next.kind
      case WireGuardKind =>
        if n.wireGuard.Some? && c.wireGuard.Some? then
          next.(spec := n.(wireGuard := Some(MergeWireGuard(n.wireGuard.value, c.wireGuard.value))))
        else next
      case AmneziaKind =>
        if n.amnezia.Some? && c.amnezia.Some? then
          next.(spec := n.(amnezia := Some(n.amnezia.value.(wg := MergeWireGuard(n.amnezia.value.wg, c.amnezia.value.wg)))))
        else next
      case XfrmStaticKind =>
        if n.xfrmStatic.Some? && c.xfrmStatic.Some? then
          next.(spec := n.(xfrmStatic := Some(MergeStatic(n.xfrmStatic.value, c.xfrmStatic.value))))
        else next
      case XfrmIkeKind =>
        if n.xfrmIke.Some? && c.xfrmIke.Some? then
          next.(spec := n.(xfrmIke := Some(MergeIke(n.xfrmIke.value, c.xfrmIke.value))))
        else next
      case _ => next
  }

  // ---- Redaction ----

  datatype Field = PrivateKeyField | PresharedKeyField(peer: nat) | EncInField | EncOutField | AuthInField | AuthOutField
                 | PskField | LocalPrivateField

  function RedactPeers(peers: seq<Peer>): (r: seq<Peer>)
    ensures |r| == |peers| && forall i | 0 <= i < |peers| :: r[i] == peers[i].(presharedKey := "")
  {
    seq(|peers|, i requires 0 <= i < |peers| => peers[i].(presharedKey := ""))
  }

  function HiddenIn(s: WireGuard): set<Field> {
    (if s.privateKey != "" then {PrivateKeyField} else {})
    + set i | 0 <= i < |s.peers| && s.peers[i].presharedKey != "" :: PresharedKeyField(i)
  }

  function AsFields(fs: seq<Field>): set<Field> { set f | f in fs }

  /** redactWireGuard: blank the private key and every preshared key, and name each field that held one. */
  method RedactWireGuard(s: WireGuard) returns (r: WireGuard, fields: seq<Field>)
    ensures r == s.(privateKey := "", peers := RedactPeers(s.peers))
    ensures AsFields(fields) == HiddenIn(s)
  {
    r, fields := s, [];
    if r.privateKey != "" {
      fields := [PrivateKeyField];
      r := r.(privateKey := "");
    }
    var peers := r.peers;
    ghost var named := AsFields(fields);
    for i := 0 to |peers|
      invariant |peers| == |s.peers|
      invariant forall j | 0 <= j < i :: peers[j] == s.peers[j].(presharedKey := "")
      invariant forall j | i <= j < |peers| :: peers[j] == s.peers[j]
      invariant AsFields(fields) == named + set j | 0 <= j < i && s.peers[j].presharedKey != "" :: PresharedKeyField(j)
    {
      if peers[i].presharedKey != "" {
        assert AsFields(fields + [PresharedKeyField(i)]) == AsFields(fields) + {PresharedKeyField(i)};
        fields := fields + [PresharedKeyField(i)];
        peers := peers[i := peers[i].(presharedKey := "")];
      }
    }
    assert peers == RedactPeers(s.peers);
    r := r.(peers := peers);
  }

  /** A secret made of blanks only is left in place. */
  function Blanked(s: string): string { if NotBlank(s) then "" else s }

  /** Redact, the record part. */
  function Redact(t: Tunnel): Tunnel {
    var s := t.spec;
    match t.kind
    case WireGuardKind =>
      if s.wireGuard.None? then t
      else t.(spec := s.(wireGuard := Some(s.wireGuard.value.(privateKey := "", peers := RedactPeers(s.wireGuard.value.peers)))))
    case AmneziaKind =>
      if s.amnezia.None? then t
      else
        var wg := s.amnezia.value.wg;
        t.(spec := s.(amnezia := Some(s.amnezia.value.(wg := wg.(privateKey := "", peers := RedactPeers(wg.peers))))))
    case XfrmStaticKind =>
      if s.xfrmStatic.None? then t
      else t.(spec := s.(xfrmStatic := Some(s.xfrmStatic.value.(encIn := "", encOut := "", authIn := "", authOut := ""))))
    case XfrmIkeKind =>
      if s.xfrmIke.None? then t
      else t.(spec := s.(xfrmIke := Some(s.xfrmIke.value.(psk := Blanked(s.xfrmIke.value.psk),
                                                           localPrivate := Blanked(s.xfrmIke.value.localPrivate)))))
    case _ => t
  }

  // ---- Defaults ----

  function Default(v: int, d: int): int { if v == 0 then d else v }

  function XfrmId(digest: U32): U32 { if digest % 0x8000_0000 == 0 then 1 else digest % 0x8000_0000 }

  function DefaultId(v: U32, digest: U32): U32 { if v == 0 then XfrmId(digest) else v }

  function Header(headers: seq<string>, i: nat): string { if i < |headers| && headers[i] != "" then headers[i] else "1" }

  function DefaultSpec(env: Env, t: Tunnel, headers: seq<string>): Spec {
    var s := t.spec;
    match t.kind
    case GreKind =>
      if s.gre.None? then s else s.(gre := Some(s.gre.value.(mtu := Default(s.gre.value.mtu, 1450), ttl := Default(s.gre.value.ttl, 255))))
    case VxlanKind =>
      if s.vxlan.None? then s
      else s.(vxlan := Some(s.vxlan.value.(mtu := Default(s.vxlan.value.mtu, 1450), port := Default(s.vxlan.value.port, 4789))))
    case WireGuardKind =>
      if s.wireGuard.None? then s else s.(wireGuard := Some(s.wireGuard.value.(mtu := Default(s.wireGuard.value.mtu, 1420))))
    case AmneziaKind =>
      if s.amnezia.None? then s
      else
        var a := s.amnezia.value;
        s.(amnezia := Some(a.(wg := a.wg.(mtu := Default(a.wg.mtu, 1420)), jc := Default(a.jc, 4), jmin := Default(a.jmin, 40),
                              jmax := Default(a.jmax, 1200), h1 := Or(a.h1, Header(headers, 0)), h2 := Or(a.h2, Header(headers, 1)),
                              h3 := Or(a.h3, Header(headers, 2)), h4 := Or(a.h4, Header(headers, 3)))))
    case XfrmStaticKind =>
      if s.xfrmStatic.None? then s
      else
        var x := s.xfrmStatic.value;
        s.(xfrmStatic := Some(x.(ifId := DefaultId(x.ifId, env.digest0(t.id)), reqId := DefaultId(x.reqId, env.digest4(t.id)),
                                 mtu := Default(x.mtu, 1400), algorithm := Or(x.algorithm, GCM))))
    case XfrmIkeKind =>
      if s.xfrmIke.None? then s
      else
        var x := s.xfrmIke.value;
        s.(xfrmIke := Some(x.(ifId := DefaultId(x.ifId, env.digest0(t.id)), reqId := DefaultId(x.reqId, env.digest4(t.id)),
                              mtu := Default(x.mtu, 1400), ikeProposal := Or(x.ikeProposal, "aes128gcm16-prfsha256-curve25519"),
                              espProposal := Or(x.espProposal, "aes128gcm16"), startAction := Or(x.startAction, "trap"))))
    case Srv6Kind =>
      if s.srv6.None? then s
      else
        var v := s.srv6.value;
        s.(srv6 := Some(v.(rulePriority := Default(v.rulePriority, AUTO_MIN), refresh := Default(v.refresh, 3600),
                           sources := Filled(v.sources, 0))))
  }

  /** applyDefaults */
  function Defaults(env: Env, t: Tunnel, headers: seq<string>): Tunnel {
    var d := t.(spec := DefaultSpec(env, t, headers));
    if NeedsFallback(env, d) then d.(spec := d.spec.(babel := Some(d.spec.babel.value.(multicast := Some(false))))) else d
  }

  // ---- Key material ----

  /** ensureWireGuardKey: the public key is always derived anew. */
  function WithKeys(env: Env, s: WireGuard, generate: Option<Draws>): Option<WireGuard> {
    if s.privateKey == "" && generate.None? then None
    else
      var private := if s.privateKey == "" then generate.value.key else s.privateKey;
      var key := env.parseKey(private);
      if key.None? then None else Some(s.(privateKey := private, publicKey := env.keyText(env.publicOf(key.value))))
  }

  function StaticKeys(s: XfrmStatic, generate: Option<Draws>): Option<XfrmStatic> {
    var cbc := s.algorithm == CBC;
    if generate.None? then
      if s.spiIn == 0 || s.spiOut == 0 || s.encIn == "" || s.encOut == "" || (cbc && (s.authIn == "" || s.authOut == "")) then None
      else Some(s)
    else
      var d := generate.value;
      Some(s.(spiIn := if s.spiIn == 0 then d.spiIn else s.spiIn, spiOut := if s.spiOut == 0 then d.spiOut else s.spiOut,
              encIn := Or(s.encIn, d.encIn), encOut := Or(s.encOut, d.encOut),
              authIn := if cbc then Or(s.authIn, d.authIn) else s.authIn,
              authOut := if cbc then Or(s.authOut, d.authOut) else s.authOut))
  }

  function IkeKeys(s: XfrmIke, generate: Option<Draws>): Option<XfrmIke> {
    if s.auth == PSK then
      if s.psk != "" then Some(s) else if generate.None? then None else Some(s.(psk := generate.value.psk))
    else if s.auth == RPK then
      if s.localPrivate != "" && s.localPublic != "" then Some(s)
      else if s.localPrivate != "" || s.localPublic != "" || generate.None? then None
      else Some(s.(rpkAlgorithm := "ecdsa", localPrivate := generate.value.rpkPrivate, localPublic := generate.value.rpkPublic))
    else Some(s)
  }

  /** prepareSecrets; None is an error. */
  function Secrets(env: Env, t: Tunnel, generate: Option<Draws>): Option<Tunnel> {
    var s := t.spec;
    match t.kind
    case WireGuardKind =>
      if s.wireGuard.None? then None
      else
        var w := WithKeys(env, s.wireGuard.value, generate);
        if w.None? then None else Some(t.(spec := s.(wireGuard := w)))
    case AmneziaKind =>
      if s.amnezia.None? then None
      else
        var w := WithKeys(env, s.amnezia.value.wg, generate);
        if w.None? then None else Some(t.(spec := s.(amnezia := Some(s.amnezia.value.(wg := w.value)))))
    case XfrmStaticKind =>
      if s.xfrmStatic.None? then None
      else
        var x := StaticKeys(s.xfrmStatic.value, generate);
        if x.None? then None else Some(t.(spec := s.(xfrmStatic := x)))
    case XfrmIkeKind =>
      if s.xfrmIke.None? then None
      else
        var x := IkeKeys(s.xfrmIke.value, generate);
        if x.None? then None else Some(t.(spec := s.(xfrmIke := x)))
    case _ => Some(t)
  }

  function Checked(env: Env, t: Option<Tunnel>): Option<Tunnel> {
    if t.Some? && Valid(env, t.value) then t else None
  }

  /** PrepareNew; None is an error. */
  function PrepareNew(env: Env, t: Tunnel, now: nat, draws: Draws): Option<Tunnel> {
    if !SpecChosen(t) then None
    else
      var n := t.(id := Or(t.id, draws.id), schema := SCHEMA, generation := 1, createdAt := now, updatedAt := now);
      Checked(env, Secrets(env, Defaults(env, n, draws.headers), Some(draws)))
  }

  function KeepPriority(next: Tunnel, current: Tunnel): Tunnel {
    if next.kind == Srv6Kind && next.spec.srv6.Some? && current.spec.srv6.Some? && next.spec.srv6.value.rulePriority == 0 then
      next.(spec := next.spec.(srv6 := Some(next.spec.srv6.value.(rulePriority := current.spec.srv6.value.rulePriority))))
    else next
  }

  /** PrepareUpdate; None is an error. */
  function PrepareUpdate(env: Env, next: Tunnel, current: Tunnel, now: nat, headers: seq<string>): Option<Tunnel> {
    if !SpecChosen(next) then None
    else
      var n := next.(id := current.id, schema := SCHEMA, generation := current.generation + 1, createdAt := current.createdAt,
                     updatedAt := now);
      Checked(env, Secrets(env, Defaults(env, KeepPriority(Merge(n, current), current), headers), None))
  }
}
