/** What a speaker writes for its routes, and what its neighbour hears: encodeRoutes, then the wire, then the parser. */
module Announcing {
  import opened Net
  import opened BabelTypes
  import opened SpeakerState
  import opened Wire
  import opened Decoder
  import opened Encoder
  import opened RoundTrip

  /** The outgoing interface: its addresses, where NoAddr is none, and the interval announced. */
  datatype Interface = Interface(v4: Addr, linkLocal: Addr, interval: nat)

  /** The own address of the family that traffic to the prefix is to be sent to. */
  function HopOn(i: Interface, p: Prefix): Addr { if p.addr.V4? && !i.v4.NoAddr? then i.v4 else i.linkLocal }

  /** IPv4 prefixes get an IPv6 next hop where the interface has no IPv4 address (section 2.1 of RFC 9229). */
  predicate NeedsV6(i: Interface, p: Prefix) { p.addr.V4? && i.v4.NoAddr? }

  /** The TLVs of one update. */
  function Lines(i: Interface, u: Update, q: Quality): seq<Tlv> {
    [RouterIdValue(u.rid)] + (if HopOn(i, u.prefix).NoAddr? then [] else [NextHop(HopOn(i, u.prefix))])
    + [Announcement(0, i.interval, u.seqno, u.metric, u.prefix, UNSPECIFIED_ID, NoAddr, NeedsV6(i, u.prefix), q, None)]
  }

  /** An update with the path quality sent with it. */
  datatype Outgoing = Outgoing(update: Update, quality: Quality)

  /** encodeRoutes: what is written for the routes, on this interface. */
  function Outgoings(s: State, rs: seq<Route>, i: Interface, quality: Route -> Quality): seq<Outgoing> {
    if rs == [] then []
    else
      var r := rs[|rs| - 1];
      var u := Encoded(s, r, HopOn(i, r.prefix));
      Outgoings(s, rs[..|rs| - 1], i, quality) + if u.None? then [] else [Outgoing(u.value, quality(r))]
  }

  function AllLines(i: Interface, us: seq<Outgoing>): seq<Tlv> {
    if us == [] then [] else AllLines(i, us[..|us| - 1]) + Lines(i, us[|us| - 1].update, us[|us| - 1].quality)
  }

  lemma OneMoreLine(i: Interface, us: seq<Outgoing>, o: Outgoing, lines: seq<Tlv>)
    requires lines == Lines(i, o.update, o.quality)
    ensures AllLines(i, us + [o]) == AllLines(i, us) + lines
  {
    hide Lines;
    assert (us + [o])[..|us|] == us;
  }

  // ---- What can be sent ----

  /** The addresses an interface has: neither unspecified nor outside the range the wire carries. */
  predicate Ordinary(i: Interface) {
    && KeptInterval(i.interval)
    && (i.v4.NoAddr? || (i.v4.V4? && KeptAddress(i.v4)))
    && (i.linkLocal.NoAddr? || (i.linkLocal.V6? && !i.linkLocal.IsUnspecified() && KeptAddress(i.linkLocal)))
  }

  predicate Sent(i: Interface, o: Outgoing) {
    && ValidId(o.update.rid) && Proper(o.update.prefix) && KeptQuality(o.quality)
    && if NeedsV6(i, o.update.prefix) then KeptViaV6(o.update.prefix) else KeptPrefix(o.update.prefix)
  }

  ghost predicate AllSent(i: Interface, us: seq<Outgoing>) { forall o | o in us :: Sent(i, o) }

  lemma UpdateIsCanonical(i: Interface, u: Update, q: Quality, v: Tlv)
    requires Ordinary(i) && KeptQuality(q) && Proper(u.prefix)
    requires if NeedsV6(i, u.prefix) then KeptViaV6(u.prefix) else KeptPrefix(u.prefix)
    requires v == Announcement(0, i.interval, u.seqno, u.metric, u.prefix, UNSPECIFIED_ID, NoAddr, NeedsV6(i, u.prefix), q, None)
    ensures Encodable(v) && Canonical(v)
  {
    hide KeptViaV6, KeptPrefix, KeptQuality, KeptAddress, KeptInterval, EncodingOf;
  }

  lemma LinesAreCanonical(i: Interface, us: seq<Outgoing>, j: nat, o: Outgoing)
    requires Ordinary(i) && AllSent(i, us) && j < |us| && o == us[j]
    ensures forall v | v in Lines(i, o.update, o.quality) :: Encodable(v) && Canonical(v)
  {
    hide Canonical, Encodable, Ordinary, KeptViaV6, KeptPrefix, KeptQuality, KeptAddress, ValidId, KeptInterval;
    assert o in us && Sent(i, o);
    var lines, u := Lines(i, o.update, o.quality), o.update;
    HopIsCanonical(i, u.prefix);
    RouterIsCanonical(u.rid);
    UpdateIsCanonical(i, u, o.quality, lines[|lines| - 1]);
  }

  lemma RouterIsCanonical(rid: RouterId)
    requires ValidId(rid)
    ensures Encodable(RouterIdValue(rid)) && Canonical(RouterIdValue(rid))
  {
  }

  lemma HopIsCanonical(i: Interface, p: Prefix)
    requires Ordinary(i)
    ensures var hop := HopOn(i, p); !hop.NoAddr? ==> Encodable(NextHop(hop)) && Canonical(NextHop(hop))
  {
    HopIsKept(i, p);
    hide KeptAddress, HopOn;
  }

  lemma HopIsKept(i: Interface, p: Prefix)
    requires Ordinary(i)
    ensures var hop := HopOn(i, p); !hop.NoAddr? ==> KeptAddress(hop) && hop.Valid()
  {
  }

  // ---- What is heard ----

  /** The next hop that arrives: none with ::/0, which is written without a family. */
  function HeardHop(i: Interface, p: Prefix): Addr {
    if p.addr.IsUnspecified() && !NeedsV6(i, p) then NoAddr else HopOn(i, p)
  }

  function Heard(i: Interface, o: Outgoing): seq<Tlv> {
    var u := o.update;
    [RouterIdValue(u.rid)] + (if HopOn(i, u.prefix).NoAddr? then [] else [NextHop(HopOn(i, u.prefix))])
    + [Announcement(0, i.interval, u.seqno, u.metric, u.prefix, u.rid, HeardHop(i, u.prefix), NeedsV6(i, u.prefix),
                    Marked(o.quality), None)]
  }

  function AllHeard(i: Interface, us: seq<Outgoing>): seq<Tlv> {
    if us == [] then [] else AllHeard(i, us[..|us| - 1]) + Heard(i, us[|us| - 1])
  }

  /** The next hops a parser remembers from this interface are its addresses. */
  predicate HopsOf(i: Interface, ctx: Context) {
    && DefaultsFit(ctx.defaults) && AnyFamily !in ctx.hops
    && (IPv4 in ctx.hops ==> !i.v4.NoAddr? && ctx.hops[IPv4] == i.v4)
    && (IPv6 in ctx.hops ==> !i.linkLocal.NoAddr? && ctx.hops[IPv6] == i.linkLocal)
  }

  lemma {:induction false} AfterAllJoin(ctx: Context, a: seq<Sendable>, b: seq<Sendable>)
    ensures AfterAll(ctx, a + b) == AfterAll(AfterAll(ctx, a), b)
    ensures ResolvedAll(ctx, a + b) == ResolvedAll(ctx, a) + ResolvedAll(AfterAll(ctx, a), b)
  {
    hide AfterReceiving, Resolved;
    if b == [] {
      assert a + b == a;
    } else {
      var front, v := b[..|b| - 1], b[|b| - 1];
      AfterAllJoin(ctx, a, front);
      assert (a + b)[..|a + b| - 1] == a + front && (a + b)[|a + b| - 1] == v;
      assert ResolvedAll(ctx, a) + (ResolvedAll(AfterAll(ctx, a), front) + [Resolved(AfterAll(AfterAll(ctx, a), front), v)])
          == ResolvedAll(ctx, a) + ResolvedAll(AfterAll(ctx, a), front) + [Resolved(AfterAll(AfterAll(ctx, a), front), v)];
    }
  }

  lemma One(ctx: Context, v: Sendable)
    ensures AfterAll(ctx, [v]) == AfterReceiving(ctx, v) && ResolvedAll(ctx, [v]) == [Resolved(ctx, v)]
  {
    hide AfterReceiving, Resolved;
    assert [v][..0] == [];
  }

  lemma FamilyOfHop(i: Interface, p: Prefix)
    requires Ordinary(i) && !HopOn(i, p).NoAddr?
    ensures HopFamily(EncodingOf(HopOn(i, p))) == if p.addr.V4? && !i.v4.NoAddr? then IPv4 else IPv6
  {
  }

  lemma FamilyOfPrefix(i: Interface, p: Prefix)
    requires Proper(p) && if NeedsV6(i, p) then KeptViaV6(p) else KeptPrefix(p)
    ensures FamilyOf(UpdateAe(p, NeedsV6(i, p))) ==
            if NeedsV6(i, p) then IPv6 else if p.addr.IsUnspecified() then AnyFamily else if p.addr.V4? then IPv4 else IPv6
  {
  }

  lemma PlainFlags(ctx: Context, ae: Byte, a: Addr)
    requires a.Valid()
    ensures AfterUpdate(ctx, ae, 0, a) == ctx
  {
  }

  /** The update itself, once router-id and next hop are known. */
  lemma UpdateHeard(ctx: Context, i: Interface, us: seq<Outgoing>, j: nat, o: Outgoing, v: Sendable)
    requires Ordinary(i) && AllSent(i, us) && j < |us| && o == us[j] && HopsOf(i, ctx) && ctx.rid == o.update.rid
    requires var hop := HopOn(i, o.update.prefix); !hop.NoAddr? ==> HopFamily(EncodingOf(hop)) in ctx.hops
    requires var u := o.update;
             v == Announcement(0, i.interval, u.seqno, u.metric, u.prefix, UNSPECIFIED_ID, NoAddr, NeedsV6(i, u.prefix), o.quality, None)
    ensures AfterReceiving(ctx, v) == ctx
    ensures var u := o.update;
            Resolved(ctx, v) == Announcement(0, i.interval, u.seqno, u.metric, u.prefix, u.rid, HeardHop(i, u.prefix),
                                             NeedsV6(i, u.prefix), Marked(o.quality), None)
  {
    assert o in us && Sent(i, o);
    var p := o.update.prefix;
    PlainFlags(ctx, UpdateAe(p, NeedsV6(i, p)), p.addr);
    FamilyOfPrefix(i, p);
    if !HopOn(i, p).NoAddr? {
      FamilyOfHop(i, p);
    }
    hide EncodingOf, UpdateAe, KeptPrefix, KeptViaV6, KeptAddress, KeptQuality, AfterUpdate, DefaultsFit, FamilyOf, Marked;
  }

  lemma HopHeard(ctx: Context, i: Interface, p: Prefix, v: Sendable)
    requires Ordinary(i) && HopsOf(i, ctx) && !HopOn(i, p).NoAddr? && v == NextHop(HopOn(i, p))
    ensures var after := AfterReceiving(ctx, v);
            HopsOf(i, after) && after.rid == ctx.rid && HopFamily(EncodingOf(HopOn(i, p))) in after.hops
    ensures Resolved(ctx, v) == v
  {
    FamilyOfHop(i, p);
    hide EncodingOf, KeptAddress, DefaultsFit;
  }

  lemma LinesHeard(ctx: Context, i: Interface, us: seq<Outgoing>, j: nat, o: Outgoing, vs: seq<Sendable>)
    requires Ordinary(i) && AllSent(i, us) && j < |us| && o == us[j] && HopsOf(i, ctx) && vs == Lines(i, o.update, o.quality)
    ensures ResolvedAll(ctx, vs) == Heard(i, o) && HopsOf(i, AfterAll(ctx, vs))
  {
    hide Sent, Ordinary, Resolved, AfterReceiving, HopFamily, EncodingOf, Marked, HeardHop, NeedsV6;
    var n, hop := |vs| - 1, HopOn(i, o.update.prefix);
    var named: seq<Sendable> := [vs[0]];
    One(ctx, vs[0]);
    RouterHeard(ctx, i, o.update.rid, vs[0]);
    var start := AfterReceiving(ctx, vs[0]);
    if hop.NoAddr? {
      assert vs == named + [vs[n]];
      UpdateHeard(start, i, us, j, o, vs[n]);
      One(start, vs[n]);
      AfterAllJoin(ctx, named, [vs[n]]);
    } else {
      assert vs == named + [vs[1]] + [vs[n]];
      HopHeard(start, i, o.update.prefix, vs[1]);
      One(start, vs[1]);
      AfterAllJoin(ctx, named, [vs[1]]);
      var next := AfterReceiving(start, vs[1]);
      UpdateHeard(next, i, us, j, o, vs[n]);
      One(next, vs[n]);
      AfterAllJoin(ctx, named + [vs[1]], [vs[n]]);
    }
  }

  lemma RouterHeard(ctx: Context, i: Interface, rid: RouterId, v: Sendable)
    requires HopsOf(i, ctx) && v == RouterIdValue(rid)
    ensures Resolved(ctx, v) == v && AfterReceiving(ctx, v) == ctx.(rid := rid) && HopsOf(i, AfterReceiving(ctx, v))
  {
  }

  lemma {:induction false} AllLinesAreCanonical(i: Interface, us: seq<Outgoing>)
    requires Ordinary(i) && AllSent(i, us)
    ensures forall v | v in AllLines(i, us) :: Encodable(v) && Canonical(v)
  {
    hide Ordinary, Sent, Lines, Encodable, Canonical;
    if us != [] {
      var front := us[..|us| - 1];
      assert AllSent(i, front);
      AllLinesAreCanonical(i, front);
      LinesAreCanonical(i, us, |us| - 1, us[|us| - 1]);
    }
  }

  lemma {:induction false} AllLinesHeard(i: Interface, us: seq<Outgoing>, vs: seq<Sendable>)
    requires Ordinary(i) && AllSent(i, us) && vs == AllLines(i, us)
    ensures ResolvedAll(FRESH, vs) == AllHeard(i, us) && HopsOf(i, AfterAll(FRESH, vs))
  {
    hide Ordinary, Sent, Lines, Encodable, Canonical, Heard;
    if us != [] {
      var front, last := us[..|us| - 1], us[|us| - 1];
      assert AllSent(i, front);
      AllLinesAreCanonical(i, front);
      LinesAreCanonical(i, us, |us| - 1, last);
      var a: seq<Sendable> := AllLines(i, front);
      var b: seq<Sendable> := Lines(i, last.update, last.quality);
      AllLinesHeard(i, front, a);
      LinesHeard(AfterAll(FRESH, a), i, us, |us| - 1, last, b);
      AfterAllJoin(FRESH, a, b);
    }
  }

  /** Where the list leaves in one packet, a neighbour that parses it hears exactly the updates written, each with the
      router-id, the sequence number and the metric of the route, and with the interface's own address of the right family
      as its next hop. */
  lemma NeighbourHearsUpdates(i: Interface, us: seq<Outgoing>, vs: seq<Sendable>)
    requires Ordinary(i) && AllSent(i, us) && vs == AllLines(i, us) && |TlvsBytes(vs)| < 0x1_0000
    ensures DecodePacket(FRESH, PacketBytes(vs, [])).result == Ok(Packet(AllHeard(i, us), []))
  {
    hide Ordinary, Sent, Lines, Encodable, Canonical, Heard, TlvsBytes, PacketBytes, DecodePacket, ResolvedAll, AfterAll;
    AllLinesAreCanonical(i, us);
    AllLinesHeard(i, us, vs);
    PacketRoundTrip(vs, []);
  }
}
