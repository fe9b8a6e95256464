/** What redacted copies show and what merging puts back, field by field. */
module Redaction {
  import opened Net
  import opened Records
  import opened Prepare

  // ---- What is hidden ----

  /** Nothing is kept in the WireGuard part but the key of the tunnel and those of its peers, and these are blank. */
  predicate HidesKeys(w: WireGuard, r: WireGuard) {
    && r == w.(privateKey := "", peers := r.peers) && |r.peers| == |w.peers|
    && forall i | 0 <= i < |w.peers| :: r.peers[i] == w.peers[i].(presharedKey := "")
  }

  /** A secret is gone; what is blank anyway stays. */
  predicate Hides(secret: string, left: string) {
    !(exists i :: 0 <= i < |left| && !IsSpace(left[i])) && (left == "" || left == secret)
  }

  /** r is the record without its secrets, and otherwise t. */
  predicate Shows(t: Tunnel, r: Tunnel) {
    var s := t.spec;
    match t.kind
    case WireGuardKind =>
      && r == t.(spec := s.(wireGuard := r.spec.wireGuard)) && (s.wireGuard.None? <==> r.spec.wireGuard.None?)
      && (s.wireGuard.Some? && r.spec.wireGuard.Some? ==> HidesKeys(s.wireGuard.value, r.spec.wireGuard.value))
    case AmneziaKind =>
      && r == t.(spec := s.(amnezia := r.spec.amnezia)) && (s.amnezia.None? <==> r.spec.amnezia.None?)
      && (s.amnezia.Some? && r.spec.amnezia.Some? ==>
            && r.spec.amnezia.value == s.amnezia.value.(wg := r.spec.amnezia.value.wg)
            && HidesKeys(s.amnezia.value.wg, r.spec.amnezia.value.wg))
    case XfrmStaticKind =>
      && r == t.(spec := s.(xfrmStatic := r.spec.xfrmStatic)) && (s.xfrmStatic.None? <==> r.spec.xfrmStatic.None?)
      && (s.xfrmStatic.Some? ==>
            r.spec.xfrmStatic == Some(s.xfrmStatic.value.(encIn := "", encOut := "", authIn := "", authOut := "")))
    case XfrmIkeKind =>
      && r == t.(spec := s.(xfrmIke := r.spec.xfrmIke)) && (s.xfrmIke.None? <==> r.spec.xfrmIke.None?)
      && (s.xfrmIke.Some? && r.spec.xfrmIke.Some? ==>
            var x, y := s.xfrmIke.value, r.spec.xfrmIke.value;
            y == x.(psk := y.psk, localPrivate := y.localPrivate) && Hides(x.psk, y.psk) && Hides(x.localPrivate, y.localPrivate))
    case _ => r == t
  }

  lemma RedactMeans(t: Tunnel)
    ensures Shows(t, Redact(t))
  {
  }

  /** The field holds a secret of the record. */
  predicate Holds(t: Tunnel, f: Field) {
    var s := t.spec;
    match f
    case PrivateKeyField =>
      || (t.kind == WireGuardKind && s.wireGuard.Some? && s.wireGuard.value.privateKey != "")
      || (t.kind == AmneziaKind && s.amnezia.Some? && s.amnezia.value.wg.privateKey != "")
    case PresharedKeyField(i) =>
      || (t.kind == WireGuardKind && s.wireGuard.Some? && i < |s.wireGuard.value.peers|
          && s.wireGuard.value.peers[i].presharedKey != "")
      || (t.kind == AmneziaKind && s.amnezia.Some? && i < |s.amnezia.value.wg.peers|
          && s.amnezia.value.wg.peers[i].presharedKey != "")
    case EncInField => t.kind == XfrmStaticKind && s.xfrmStatic.Some? && s.xfrmStatic.value.encIn != ""
    case EncOutField => t.kind == XfrmStaticKind && s.xfrmStatic.Some? && s.xfrmStatic.value.encOut != ""
    case AuthInField => t.kind == XfrmStaticKind && s.xfrmStatic.Some? && s.xfrmStatic.value.authIn != ""
    case AuthOutField => t.kind == XfrmStaticKind && s.xfrmStatic.Some? && s.xfrmStatic.value.authOut != ""
    case PskField => t.kind == XfrmIkeKind && s.xfrmIke.Some? && NotBlank(s.xfrmIke.value.psk)
    case LocalPrivateField => t.kind == XfrmIkeKind && s.xfrmIke.Some? && NotBlank(s.xfrmIke.value.localPrivate)
  }

  /** redactXFRM: the four keys, in any order. */
  method RedactStatic(x: XfrmStatic) returns (r: XfrmStatic, fields: seq<Field>)
    ensures r == x.(encIn := "", encOut := "", authIn := "", authOut := "")
    ensures forall f :: f in fields <==>
              || (f == EncInField && x.encIn != "") || (f == EncOutField && x.encOut != "")
              || (f == AuthInField && x.authIn != "") || (f == AuthOutField && x.authOut != "")
  {
    r, fields := x, [];
    if r.encIn != "" {
      r, fields := r.(encIn := ""), fields + [EncInField];
    }
    if r.encOut != "" {
      r, fields := r.(encOut := ""), fields + [EncOutField];
    }
    if r.authIn != "" {
      r, fields := r.(authIn := ""), fields + [AuthInField];
    }
    if r.authOut != "" {
      r, fields := r.(authOut := ""), fields + [AuthOutField];
    }
  }

  method RedactIke(x: XfrmIke) returns (r: XfrmIke, fields: seq<Field>)
    ensures r == x.(psk := Blanked(x.psk), localPrivate := Blanked(x.localPrivate))
    ensures forall f :: f in fields <==> (f == PskField && NotBlank(x.psk)) || (f == LocalPrivateField && NotBlank(x.localPrivate))
  {
    r, fields := x, [];
    if NotBlank(r.psk) {
      r, fields := r.(psk := ""), fields + [PskField];
    }
    if NotBlank(r.localPrivate) {
      r, fields := r.(localPrivate := ""), fields + [LocalPrivateField];
    }
  }

  /** Redact: a copy without secrets, and the names of exactly the fields that held one. */
  method RedactRecord(t: Tunnel) returns (r: Tunnel, fields: seq<Field>)
    ensures r == Redact(t) && Shows(t, r)
    ensures forall f :: f in fields <==> Holds(t, f)
  {
    RedactMeans(t);
    r, fields := t, [];
    var s := t.spec;
    match t.kind
    case WireGuardKind =>
      if s.wireGuard.Some? {
        var w;
        w, fields := RedactWireGuard(s.wireGuard.value);
        r := t.(spec := s.(wireGuard := Some(w)));
        assert forall f :: f in fields <==> f in AsFields(fields);
      }
    case AmneziaKind =>
      if s.amnezia.Some? {
        var w;
        w, fields := RedactWireGuard(s.amnezia.value.wg);
        r := t.(spec := s.(amnezia := Some(s.amnezia.value.(wg := w))));
        assert forall f :: f in fields <==> f in AsFields(fields);
      }
    case XfrmStaticKind =>
      if s.xfrmStatic.Some? {
        var x;
        x, fields := RedactStatic(s.xfrmStatic.value);
        r := t.(spec := s.(xfrmStatic := Some(x)));
      }
    case XfrmIkeKind =>
      if s.xfrmIke.Some? {
        var x;
        x, fields := RedactIke(s.xfrmIke.value);
        r := t.(spec := s.(xfrmIke := Some(x)));
      }
    case _ =>
  }

  // ---- What two copies tell ----

  predicate KeysApart(w: WireGuard, v: WireGuard) {
    && v == w.(privateKey := v.privateKey, peers := v.peers) && |v.peers| == |w.peers|
    && forall i | 0 <= i < |w.peers| :: v.peers[i] == w.peers[i].(presharedKey := v.peers[i].presharedKey)
  }

  /** The records differ in their secrets at most. */
  predicate SecretsApart(t: Tunnel, u: Tunnel) {
    var s, v := t.spec, u.spec;
    match t.kind
    case WireGuardKind =>
      && u == t.(spec := s.(wireGuard := v.wireGuard)) && s.wireGuard.Some? && v.wireGuard.Some?
      && KeysApart(s.wireGuard.value, v.wireGuard.value)
    case AmneziaKind =>
      && u == t.(spec := s.(amnezia := v.amnezia)) && s.amnezia.Some? && v.amnezia.Some?
      && v.amnezia.value == s.amnezia.value.(wg := v.amnezia.value.wg) && KeysApart(s.amnezia.value.wg, v.amnezia.value.wg)
    case XfrmStaticKind =>
      && u == t.(spec := s.(xfrmStatic := v.xfrmStatic)) && s.xfrmStatic.Some? && v.xfrmStatic.Some?
      && var x, y := s.xfrmStatic.value, v.xfrmStatic.value;
         y == x.(encIn := y.encIn, encOut := y.encOut, authIn := y.authIn, authOut := y.authOut)
    case XfrmIkeKind =>
      && u == t.(spec := s.(xfrmIke := v.xfrmIke)) && s.xfrmIke.Some? && v.xfrmIke.Some?
      && var x, y := s.xfrmIke.value, v.xfrmIke.value;
         && y == x.(psk := y.psk, localPrivate := y.localPrivate)
         && (x.psk == y.psk || (NotBlank(x.psk) && NotBlank(y.psk)))
         && (x.localPrivate == y.localPrivate || (NotBlank(x.localPrivate) && NotBlank(y.localPrivate)))
    case _ => t == u
  }

  lemma PeersLookAlike(a: seq<Peer>, b: seq<Peer>)
    requires |a| == |b| && forall i | 0 <= i < |a| :: b[i] == a[i].(presharedKey := b[i].presharedKey)
    ensures RedactPeers(a) == RedactPeers(b)
  {
    forall i | 0 <= i < |a|
      ensures RedactPeers(a)[i] == RedactPeers(b)[i]
    {
      assert b[i] == a[i].(presharedKey := b[i].presharedKey);
    }
  }

  /** Nobody can tell such records from each other by their redacted copies. */
  lemma RedactedLookAlike(t: Tunnel, u: Tunnel)
    requires SecretsApart(t, u)
    ensures Redact(t) == Redact(u)
  {
    match t.kind
    case WireGuardKind => PeersLookAlike(t.spec.wireGuard.value.peers, u.spec.wireGuard.value.peers);
    case AmneziaKind => PeersLookAlike(t.spec.amnezia.value.wg.peers, u.spec.amnezia.value.wg.peers);
    case _ =>
  }

  // ---- What merging puts back ----

  /** A field that was left out is taken from the current record; a given one stays. */
  predicate Given(next: string, current: string, r: string) { r == if next == "" then current else next }

  /** The marker clears a preshared key; one left out comes from the last current peer of that public key. */
  predicate PeerGiven(p: Peer, current: seq<Peer>, r: Peer) {
    && r == p.(presharedKey := r.presharedKey)
    && (if p.presharedKey == "\0TH_CLEAR_SECRET\0" then r.presharedKey == ""
        else if p.presharedKey != "" then r.presharedKey == p.presharedKey
        else if exists j :: 0 <= j < |current| && current[j].publicKey == p.publicKey then
          exists j :: 0 <= j < |current| && current[j].publicKey == p.publicKey && r.presharedKey == current[j].presharedKey
                      && forall k | j < k < |current| :: current[k].publicKey != p.publicKey
        else r.presharedKey == "")
  }

  predicate KeysGiven(n: WireGuard, c: WireGuard, r: WireGuard) {
    && r == n.(privateKey := r.privateKey, peers := r.peers) && Given(n.privateKey, c.privateKey, r.privateKey)
    && |r.peers| == |n.peers| && forall i | 0 <= i < |n.peers| :: PeerGiven(n.peers[i], c.peers, r.peers[i])
  }

  /** Static keys come back under the same algorithm only. */
  predicate StaticGiven(n: XfrmStatic, c: XfrmStatic, r: XfrmStatic) {
    if n.algorithm != c.algorithm then r == n
    else
      && r == n.(encIn := r.encIn, encOut := r.encOut, authIn := r.authIn, authOut := r.authOut)
      && Given(n.encIn, c.encIn, r.encIn) && Given(n.encOut, c.encOut, r.encOut)
      && Given(n.authIn, c.authIn, r.authIn) && Given(n.authOut, c.authOut, r.authOut)
  }

  /** Fields of the other way to authenticate are dropped, and those of the chosen one come from a record that uses it too. */
  predicate IkeGiven(n: XfrmIke, c: XfrmIke, r: XfrmIke) {
    if n.auth == "psk" then
      && r == n.(psk := r.psk, rpkAlgorithm := "", localPrivate := "", localPublic := "", remotePublic := "")
      && Given(n.psk, if c.auth == "psk" then c.psk else "", r.psk)
    else if n.auth == "rpk" then
      && r == n.(psk := "", localPrivate := r.localPrivate, localPublic := r.localPublic, remotePublic := r.remotePublic)
      && Given(n.localPrivate, if c.auth == "rpk" then c.localPrivate else "", r.localPrivate)
      && Given(n.localPublic, if c.auth == "rpk" then c.localPublic else "", r.localPublic)
      && Given(n.remotePublic, if c.auth == "rpk" then c.remotePublic else "", r.remotePublic)
    else r == n
  }

  predicate Merged(next: Tunnel, current: Tunnel, r: Tunnel) {
    var n, c, s := next.spec, current.spec, r.spec;
    if next.kind == WireGuardKind == current.kind && n.wireGuard.Some? && c.wireGuard.Some? then
      && r == next.(spec := n.(wireGuard := s.wireGuard)) && s.wireGuard.Some?
      && KeysGiven(n.wireGuard.value, c.wireGuard.value, s.wireGuard.value)
    else if next.kind == AmneziaKind == current.kind && n.amnezia.Some? && c.amnezia.Some? then
      && r == next.(spec := n.(amnezia := s.amnezia)) && s.amnezia.Some?
      && s.amnezia.value == n.amnezia.value.(wg := s.amnezia.value.wg)
      && KeysGiven(n.amnezia.value.wg, c.amnezia.value.wg, s.amnezia.value.wg)
    else if next.kind == XfrmStaticKind == current.kind && n.xfrmStatic.Some? && c.xfrmStatic.Some? then
      && r == next.(spec := n.(xfrmStatic := s.xfrmStatic)) && s.xfrmStatic.Some?
      && StaticGiven(n.xfrmStatic.value, c.xfrmStatic.value, s.xfrmStatic.value)
    else if next.kind == XfrmIkeKind == current.kind && n.xfrmIke.Some? && c.xfrmIke.Some? then
      r == next.(spec := n.(xfrmIke := s.xfrmIke)) && s.xfrmIke.Some? && IkeGiven(n.xfrmIke.value, c.xfrmIke.value, s.xfrmIke.value)
    else r == next
  }

  lemma {:induction false} LastPeerMeans(peers: seq<Peer>, key: string)
    ensures LastPeer(peers, key).None? <==> forall j | 0 <= j < |peers| :: peers[j].publicKey != key
    ensures LastPeer(peers, key).Some? ==>
              exists j :: 0 <= j < |peers| && peers[j] == LastPeer(peers, key).value && peers[j].publicKey == key
                          && forall k | j < k < |peers| :: peers[k].publicKey != key
  {
    if peers != [] {
      var n := |peers| - 1;
      LastPeerMeans(peers[..n], key);
      if peers[n].publicKey != key && LastPeer(peers[..n], key).Some? {
        var j :| 0 <= j < n && peers[..n][j] == LastPeer(peers[..n], key).value && peers[..n][j].publicKey == key
                 && forall k | j < k < n :: peers[..n][k].publicKey != key;
        assert forall k | j < k < n :: peers[k] == peers[..n][k];
        assert peers[j] == LastPeer(peers, key).value;
      } else {
        assert forall j | 0 <= j < n :: peers[j] == peers[..n][j];
      }
    }
  }

  lemma PeerMergeMeans(p: Peer, current: seq<Peer>)
    ensures PeerGiven(p, current, MergePeer(p, current))
  {
    LastPeerMeans(current, p.publicKey);
  }

  lemma KeysMergeMean(n: WireGuard, c: WireGuard)
    ensures KeysGiven(n, c, MergeWireGuard(n, c))
  {
    hide MergePeer, PeerGiven;
    forall i | 0 <= i < |n.peers|
      ensures PeerGiven(n.peers[i], c.peers, MergeWireGuard(n, c).peers[i])
    {
      PeerMergeMeans(n.peers[i], c.peers);
    }
  }

  lemma MergeMeans(next: Tunnel, current: Tunnel)
    ensures Merged(next, current, Merge(next, current))
  {
    hide KeysGiven, MergeWireGuard;
    var n, c := next.spec, current.spec;
    if n.wireGuard.Some? && c.wireGuard.Some? {
      KeysMergeMean(n.wireGuard.value, c.wireGuard.value);
    }
    if n.amnezia.Some? && c.amnezia.Some? {
      KeysMergeMean(n.amnezia.value.wg, c.amnezia.value.wg);
    }
  }

  lemma PeerGivenOnce(p: Peer, current: seq<Peer>, r: Peer, r': Peer)
    requires PeerGiven(p, current, r) && PeerGiven(p, current, r')
    ensures r == r'
  {
    if p.presharedKey == "" && exists j :: 0 <= j < |current| && current[j].publicKey == p.publicKey {
      var j :| 0 <= j < |current| && current[j].publicKey == p.publicKey && r.presharedKey == current[j].presharedKey
               && forall k | j < k < |current| :: current[k].publicKey != p.publicKey;
      var i :| 0 <= i < |current| && current[i].publicKey == p.publicKey && r'.presharedKey == current[i].presharedKey
               && forall k | i < k < |current| :: current[k].publicKey != p.publicKey;
      assert i == j;
    }
  }

  lemma KeysGivenOnce(n: WireGuard, c: WireGuard, r: WireGuard, r': WireGuard)
    requires KeysGiven(n, c, r) && KeysGiven(n, c, r')
    ensures r == r'
  {
    hide PeerGiven;
    forall i | 0 <= i < |n.peers|
      ensures r.peers[i] == r'.peers[i]
    {
      PeerGivenOnce(n.peers[i], c.peers, r.peers[i], r'.peers[i]);
    }
    assert r.peers == r'.peers;
  }

  /** Only one record is the merged one. */
  lemma MergedOnce(next: Tunnel, current: Tunnel, r: Tunnel, r': Tunnel)
    requires Merged(next, current, r) && Merged(next, current, r')
    ensures r == r' && r.kind == next.kind && (SpecMatches(next.spec, next.kind) ==> SpecMatches(r.spec, r.kind))
  {
    hide KeysGiven;
    var n, c := next.spec, current.spec;
    if next.kind == WireGuardKind == current.kind && n.wireGuard.Some? && c.wireGuard.Some? {
      KeysGivenOnce(n.wireGuard.value, c.wireGuard.value, r.spec.wireGuard.value, r'.spec.wireGuard.value);
    } else if next.kind == AmneziaKind == current.kind && n.amnezia.Some? && c.amnezia.Some? {
      KeysGivenOnce(n.amnezia.value.wg, c.amnezia.value.wg, r.spec.amnezia.value.wg, r'.spec.amnezia.value.wg);
    }
  }
}
