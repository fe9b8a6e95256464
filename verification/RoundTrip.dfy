/** What is sent is what is received: a fresh parser reads back every packet of canonical TLVs, with the
    router-ids and next hops that the preceding TLVs determine. */
module RoundTrip {
  import opened Net
  import opened BabelTypes
  import opened Wire
  import opened Decoder
  import opened Encoder

  // ---- Addresses and prefixes ----

  predicate KeptAddress(a: Addr) {
    && a.Valid() && !a.NoAddr?
    && if a.IsUnspecified() then a.V6?
       else !a.Is4In6() && (a.IsLinkLocal6() ==> a.octets[..8] == LINK_LOCAL_HALF)
  }

  predicate KeptPrefix(p: Prefix)
    requires Proper(p)
  {
    KeptAddress(p.addr) && (EncodingOf(p.addr) in {AE_IPV4, AE_IPV6} ==> p.bits == -1 || Masked(p) == p)
  }

  /** Masking does not see octets beyond the length. */
  lemma TruncatedMask(o: Bytes, bits: nat, full: Bytes)
    requires Ceil8(bits) <= |o| && full == o[..Ceil8(bits)] + Zeros(|o| - Ceil8(bits))
    ensures MaskOctets(full, bits) == MaskOctets(o, bits)
  {
    hide KeptBits, Ceil8;
    forall i | 0 <= i < |o|
      ensures KeepHigh(full[i], KeptBits(bits, i)) == KeepHigh(o[i], KeptBits(bits, i))
    {
      KeptBitsAt(bits, i);
    }
  }

  /** What the decoder makes of written octets: a full address, or the leading octets of one, masked. */
  lemma AssembledBack(o: Bytes, ae: Byte, bits: nat, rest: Bytes)
    requires ae in {AE_IPV4, AE_IPV6} && |o| == Octets(ae) && bits <= 8 * |o|
    ensures Assembled(map[], o[..Ceil8(bits)] + rest, ae, 0, bits) == MaskOctets(o, bits)
  {
    hide MaskOctets, MaskLast, KeepHigh, KeptBits;
    var n := Ceil8(bits);
    var full := o[..n] + Zeros(|o| - n);
    MaskLastIsMask(full, bits);
    TruncatedMask(o, bits, full);
    assert Assembled(map[], o[..n] + rest, ae, 0, bits) == MaskLast(full, bits) by {
      assert [] + (o[..n] + rest)[..n] + Zeros(|o| - n) == full;
    }
  }

  lemma DefaultsDoNotMatter(defaults: map<Byte, Addr>, b: Bytes, ae: Byte, plen: int)
    requires DefaultsFit(defaults) && -128 <= plen < 128
    ensures DecodeAddress(defaults, b, ae, 0, plen) == DecodeAddress(map[], b, ae, 0, plen)
  {
  }

  /** Plain IPv4 and IPv6 encodings give back the masked octets. */
  lemma PlainReadsBack(o: Bytes, ae: Byte, plen: int, rest: Bytes)
    requires ae in {AE_IPV4, AE_IPV6} && |o| == Octets(ae) && -128 <= plen < 128 && plen <= 8 * |o|
    ensures var bits := WrittenBits(ae, plen);
            DecodeAddress(map[], o[..Ceil8(bits)] + rest, ae, 0, plen) ==
              Ok((if ae == AE_IPV4 then V4(MaskOctets(o, bits)) else V6(MaskOctets(o, bits)), Ceil8(bits)))
  {
    AssembledBack(o, ae, WrittenBits(ae, plen), rest);
  }

  lemma FullMask(o: Bytes)
    ensures MaskOctets(o, 8 * |o|) == o
  {
  }

  /** An address in a TLV survives exactly when it is not 0.0.0.0, not 4-in-6, and, if link-local, in fe80::/64. */
  lemma AddressRoundTripIff(defaults: map<Byte, Addr>, a: Addr, rest: Bytes)
    requires DefaultsFit(defaults) && a.Valid() && !a.NoAddr?
    ensures DecodeAddress(defaults, AddressBytes(a, -1) + rest, EncodingOf(a), 0, -1) == Ok((a, |AddressBytes(a, -1)|)) <==> KeptAddress(a)
  {
    var ae, w := EncodingOf(a), AddressBytes(a, -1);
    DefaultsDoNotMatter(defaults, w + rest, ae, -1);
    if a.IsUnspecified() {
      UnspecifiedIsZero(a);
    } else if ae == AE_LINK_LOCAL {
      LinkLocalReadsBack(a, rest, -1);
    } else if !a.Is4In6() {
      PlainReadsBack(a.Slice(), ae, -1, rest);
      FullMask(a.Slice());
    }
  }

  lemma UnspecifiedIsZero(a: Addr)
    requires a.Valid() && a.IsUnspecified()
    ensures a.V6? ==> a == V6(Zeros(16))
  {
    if a.V6? {
      assert forall i | 0 <= i < 16 :: a.octets[i] == a.Slice()[i];
      assert a.octets == Zeros(16);
    }
  }

  lemma LinkLocalReadsBack(a: Addr, rest: Bytes, plen: int)
    requires a.Valid() && !a.NoAddr? && EncodingOf(a) == AE_LINK_LOCAL && -128 <= plen < 128
    ensures AddressBytes(a, plen) == a.octets[8..]
    ensures DecodeAddress(map[], a.octets[8..] + rest, AE_LINK_LOCAL, 0, plen) == Ok((V6(LINK_LOCAL_HALF + a.octets[8..]), 8))
    ensures V6(LINK_LOCAL_HALF + a.octets[8..]) == a <==> a.octets[..8] == LINK_LOCAL_HALF
  {
    assert (a.octets[8..] + rest)[..8] == a.octets[8..];
    assert a.octets == a.octets[..8] + a.octets[8..];
    assert (LINK_LOCAL_HALF + a.octets[8..])[..8] == LINK_LOCAL_HALF;
  }

  lemma LengthReadsBack(p: Prefix)
    requires Proper(p)
    ensures Int8(PrefixLen(p)) == Int8(p.bits) && PrefixFrom(p.addr, PrefixLen(p)) == p
  {
  }

  lemma MaskedOctetsIff(p: Prefix)
    requires p.Valid()
    ensures Masked(p) == p <==> MaskOctets(p.addr.Slice(), p.bits) == p.addr.Slice()
  {
  }

  function Rebuilt(a: Addr, o: Bytes): Addr { if a.V4? then V4(o) else V6(o) }

  lemma PlainPrefixIff(p: Prefix, ae: Byte, rest: Bytes)
    requires Proper(p) && ae in {AE_IPV4, AE_IPV6} && (ae == AE_IPV4 <==> p.addr.V4?)
    requires PrefixBytes(p) == p.addr.Slice()[..Ceil8(WrittenBits(ae, Int8(p.bits)))]
    ensures DecodePrefix(map[], PrefixBytes(p) + rest, ae, PrefixLen(p), 0) == Ok((p, |PrefixBytes(p)|)) <==>
            p.bits == -1 || Masked(p) == p
  {
    var o, plen := p.addr.Slice(), Int8(p.bits);
    var bits := WrittenBits(ae, plen);
    LengthReadsBack(p);
    PlainReadsBack(o, ae, plen, rest);
    if p.bits == -1 {
      FullMask(o);
    } else {
      assert bits == p.bits;
      MaskedOctetsIff(p);
    }
    DecodedPrefix(PrefixBytes(p) + rest, ae, PrefixLen(p), Rebuilt(p.addr, MaskOctets(o, bits)), Ceil8(bits));
    assert Rebuilt(p.addr, MaskOctets(o, bits)) == p.addr <==> MaskOctets(o, bits) == o;
  }

  lemma DecodedPrefix(b: Bytes, ae: Byte, plen: Byte, a: Addr, n: nat)
    requires DecodeAddress(map[], b, ae, 0, Int8(plen)) == Ok((a, n))
    ensures DecodePrefix(map[], b, ae, plen, 0) == Ok((PrefixFrom(a, plen), n))
  {
  }

  lemma DefaultsDoNotMatterToPrefix(defaults: map<Byte, Addr>, b: Bytes, ae: Byte, plen: Byte)
    requires DefaultsFit(defaults)
    ensures DecodePrefix(defaults, b, ae, plen, 0) == DecodePrefix(map[], b, ae, plen, 0)
  {
    DefaultsDoNotMatter(defaults, b, ae, Int8(plen));
  }

  /** A prefix survives exactly when its address does and, in the plain encodings, nothing is set beyond its length. */
  lemma PrefixRoundTripIff(defaults: map<Byte, Addr>, p: Prefix, rest: Bytes)
    requires DefaultsFit(defaults) && Proper(p)
    ensures DecodePrefix(defaults, PrefixBytes(p) + rest, EncodingOf(p.addr), PrefixLen(p), 0) == Ok((p, |PrefixBytes(p)|)) <==> KeptPrefix(p)
  {
    var ae, w := EncodingOf(p.addr), PrefixBytes(p);
    DefaultsDoNotMatterToPrefix(defaults, w + rest, ae, PrefixLen(p));
    LengthReadsBack(p);
    if p.addr.IsUnspecified() {
      UnspecifiedIsZero(p.addr);
    } else if ae == AE_LINK_LOCAL {
      LinkLocalReadsBack(p.addr, rest, Int8(p.bits));
    } else if !p.addr.Is4In6() {
      PlainPrefixIff(p, ae, rest);
    }
  }

  /** An unspecified address of either family is written without octets and read as ::, so 0.0.0.0/0 arrives as ::/0. */
  lemma UnspecifiedReadsAsV6(defaults: map<Byte, Addr>, p: Prefix, rest: Bytes)
    requires DefaultsFit(defaults) && Proper(p) && p.addr.IsUnspecified()
    ensures DecodePrefix(defaults, PrefixBytes(p) + rest, EncodingOf(p.addr), PrefixLen(p), 0)
         == Ok((PrefixFrom(V6(Zeros(16)), PrefixLen(p)), 0))
  {
    DefaultsDoNotMatterToPrefix(defaults, PrefixBytes(p) + rest, EncodingOf(p.addr), PrefixLen(p));
  }

  /** An IPv4 prefix announced with an IPv6 next hop survives under the same condition, and so does 0.0.0.0/0, which
      has no other encoding that keeps it. */
  predicate KeptViaV6(p: Prefix)
    requires Proper(p)
  {
    p.addr.V4? && if p.addr.IsUnspecified() then p.bits == 0 else p.bits == -1 || Masked(p) == p
  }

  lemma ViaV6RoundTripIff(defaults: map<Byte, Addr>, p: Prefix, rest: Bytes)
    requires DefaultsFit(defaults) && Proper(p) && p.addr.V4?
    ensures DecodePrefix(defaults, PrefixBytes(p) + rest, AE_IPV4, PrefixLen(p), 0) == Ok((p, |PrefixBytes(p)|)) <==> KeptViaV6(p)
  {
    DefaultsDoNotMatterToPrefix(defaults, PrefixBytes(p) + rest, AE_IPV4, PrefixLen(p));
    LengthReadsBack(p);
    if !p.addr.IsUnspecified() {
      PlainPrefixIff(p, AE_IPV4, rest);
    } else if p.bits == 0 {
      var o := p.addr.Slice();
      assert o[..0] + rest == PrefixBytes(p) + rest;
      AssembledBack(o, AE_IPV4, 0, rest);
      assert MaskOctets(o, 0) == o;
    }
  }

  // ---- Path extensions ----

  predicate Fits32(v: int) { -1 <= v < UNSET }

  predicate KeptQuality(q: Quality) {
    && (if SendsMetrics(q) then 0 <= q.bottleneck < UNSET && Fits32(q.rtt) else q.rtt == -1)
    && (if SendsQuality(q) then Fits32(q.jitter) && Fits32(q.age) else q.jitter == -1 == q.age)
  }

  function Marked(q: Quality): Quality { q.(metricsPresent := SendsMetrics(q), qualityPresent := SendsQuality(q)) }

  function WithMetrics(v: Tlv, q: Quality): Tlv
    requires v.Announcement?
  {
    if SendsMetrics(q) then
      v.(quality := v.quality.(metricsPresent := true, bottleneck := DecodeBottleneck(EncodeBottleneck(q.bottleneck)),
                               rtt := DecodeMetric32(EncodeMetric32(q.rtt))))
    else v
  }

  function WithQuality(v: Tlv, q: Quality): Tlv
    requires v.Announcement?
  {
    if SendsQuality(q) then
      v.(quality := v.quality.(qualityPresent := true, jitter := DecodeMetric32(EncodeMetric32(q.jitter)),
                               age := DecodeMetric32(EncodeMetric32(q.age)), confidence := q.confidence))
    else v
  }

  lemma MetricsSub(v: Tlv, ae: Byte, q: Quality)
    requires v.Announcement? && SendsMetrics(q)
    ensures Sub(v, ae, SUB_PATH_METRICS, MetricsBytes(q)) == SubStep(WithMetrics(v, q), None, 0)
  {
    var b := MetricsBytes(q);
    U32ReadsBack(b, 0, EncodeBottleneck(q.bottleneck));
    U32ReadsBack(b, 4, EncodeMetric32(q.rtt));
  }

  lemma QualitySub(v: Tlv, ae: Byte, q: Quality)
    requires v.Announcement? && SendsQuality(q)
    ensures Sub(v, ae, SUB_PATH_QUALITY, QualityBytes(q)) == SubStep(WithQuality(v, q), None, 0)
  {
    var b := QualityBytes(q);
    assert b[0..4] == U32Bytes(EncodeMetric32(q.jitter)) && b[4..8] == U32Bytes(EncodeMetric32(q.age));
    U32ReadsBack(b, 0, EncodeMetric32(q.jitter));
    U32ReadsBack(b, 4, EncodeMetric32(q.age));
    U16ReadsBack(b, 8, q.confidence);
  }

  lemma QualitySubsReadBack(v: Tlv, ae: Byte, q: Quality)
    requires v.Announcement?
    ensures SubTlvs(v, ae, QualitySubs(q)) == Filled(WithQuality(WithMetrics(v, q), q), None)
  {
    var w := WithMetrics(v, q);
    var tail := if SendsQuality(q) then SubBytes(SUB_PATH_QUALITY, QualityBytes(q)) else [];
    if SendsMetrics(q) {
      MetricsSub(v, ae, q);
      SubTlvsStep(v, ae, SUB_PATH_METRICS, MetricsBytes(q), tail);
    } else {
      assert QualitySubs(q) == tail;
    }
    if SendsQuality(q) {
      QualitySub(w, ae, q);
      SubTlvsStep(w, ae, SUB_PATH_QUALITY, QualityBytes(q), []);
      assert tail + [] == tail;
    }
  }

  /** The path extensions survive exactly when the values fit their fields, an unsent extension being unknown. */
  lemma QualityRoundTripIff(v: Tlv, ae: Byte, q: Quality)
    requires v.Announcement? && v.quality == NO_QUALITY
    ensures SubTlvs(v, ae, QualitySubs(q)) == Filled(v.(quality := Marked(q)), None) <==> KeptQuality(q)
  {
    hide SubTlvs, QualitySubs;
    QualitySubsReadBack(v, ae, q);
    ReadQualityIff(v, q);
  }

  lemma ReadQualityIff(v: Tlv, q: Quality)
    requires v.Announcement? && v.quality == NO_QUALITY
    ensures WithQuality(WithMetrics(v, q), q) == v.(quality := Marked(q)) <==> KeptQuality(q)
  {
    assert WithQuality(WithMetrics(v, q), q) == v.(quality := WithQuality(WithMetrics(v, q), q).quality);
  }

  predicate KeptSource(source: Option<Prefix>, ae: Byte)
    requires source.Some? ==> Proper(source.value)
  {
    source.Some? ==> KeptPrefix(source.value) && EncodingOf(source.value.addr) == ae
  }

  lemma SourceSubReadsBack(v: Tlv, ae: Byte, p: Prefix)
    requires Proper(p) && KeptPrefix(p) && EncodingOf(p.addr) == ae
    requires v.Announcement? || v.RouteRequest? || v.SeqnoRequest?
    ensures SourceSub(v, ae, [PrefixLen(p)] + PrefixBytes(p)) == SubStep(v.(source := Some(p)), None, 0)
  {
    var b := [PrefixLen(p)] + PrefixBytes(p);
    assert b[1..] == PrefixBytes(p) + [];
    PrefixRoundTripIff(map[], p, []);
  }

  lemma WrittenPrefixIsShort(p: Prefix)
    requires Proper(p)
    ensures |PrefixBytes(p)| <= 16
  {
  }

  /** A source prefix that has the encoding of the TLV it belongs to is read back, whatever follows. */
  lemma SourceReadsBack(v: Tlv, ae: Byte, source: Option<Prefix>, rest: Bytes)
    requires (source.Some? ==> Proper(source.value)) && KeptSource(source, ae)
    requires (v.Announcement? || v.RouteRequest? || v.SeqnoRequest?) && v.source == None
    ensures SubTlvs(v, ae, SourceBytes(source) + rest) == SubTlvs(v.(source := source), ae, rest)
  {
    if source.None? {
      assert SourceBytes(source) + rest == rest;
    } else {
      SomeSourceReadsBack(v, ae, source.value, [PrefixLen(source.value)] + PrefixBytes(source.value), rest);
    }
  }

  lemma SomeSourceReadsBack(v: Tlv, ae: Byte, p: Prefix, b: Bytes, rest: Bytes)
    requires Proper(p) && KeptPrefix(p) && EncodingOf(p.addr) == ae && b == [PrefixLen(p)] + PrefixBytes(p)
    requires v.Announcement? || v.RouteRequest? || v.SeqnoRequest?
    ensures SubTlvs(v, ae, SubBytes(SUB_SOURCE_PREFIX, b) + rest) == SubTlvs(v.(source := Some(p)), ae, rest)
  {
    hide PrefixBytes, PrefixLen, KeptPrefix, EncodingOf, SourceSub, SubTlvs;
    SourceSubReadsBack(v, ae, p);
    WrittenPrefixIsShort(p);
    SubTlvsStep(v, ae, SUB_SOURCE_PREFIX, b, rest);
  }

  // ---- TLVs ----

  /** A whole number of seconds up to 65. */
  predicate KeptInterval(millis: nat) { millis % 1000 == 0 && millis <= 65000 }

  /** The TLVs a parser reads back. */
  predicate Canonical(v: Sendable) {
    match v
    case PadN(n) => n < 256
    case AckRequest(_, i) => KeptInterval(i)
    case Hello(_, _, i, _) => KeptInterval(i)
    case Ihu(_, i, a, _) => KeptInterval(i) && KeptAddress(a)
    case NextHop(a) => KeptAddress(a)
    case Announcement(_, i, _, _, p, _, _, v4ViaV6, q, source) =>
      && KeptInterval(i) && KeptQuality(q) && (if v4ViaV6 then KeptViaV6(p) && source.None? else KeptPrefix(p))
      && KeptSource(source, EncodingOf(p.addr))
    case RouteRequest(p, _, source) => KeptPrefix(p) && KeptSource(source, EncodingOf(p.addr))
    case SeqnoRequest(_, _, _, p, source) => KeptPrefix(p) && KeptSource(source, EncodingOf(p.addr))
    case _ => true
  }

  /** The state of the receiving parser after a TLV. */
  function AfterReceiving(ctx: Context, v: Sendable): Context {
    match v
    case RouterIdValue(rid) => ctx.(rid := rid)
    case NextHop(a) => ctx.(hops := ctx.hops[HopFamily(EncodingOf(a)) := a])
    case Announcement(flags, _, _, _, p, _, _, v4ViaV6, _, _) => AfterUpdate(ctx, UpdateAe(p, v4ViaV6), flags, p.addr)
    case _ => ctx
  }

  /** The TLV with the fields that are not on the wire as the state determines them. */
  function Resolved(ctx: Context, v: Sendable): Tlv {
    match v
    case Announcement(_, _, _, _, p, _, _, v4ViaV6, q, _) =>
      var ctx' := AfterReceiving(ctx, v);
      v.(rid := ctx'.rid, hop := HopFor(ctx', UpdateAe(p, v4ViaV6)), quality := Marked(q))
    case RouteRequest(p, _, _) => v.(wildcard := p.addr.IsUnspecified())
    case _ => v
  }

  lemma IntervalReadsBack(millis: nat)
    requires KeptInterval(millis)
    ensures DecodeInterval(EncodeInterval(millis)) == millis
  {
  }

  lemma HelloReadsBack(ctx: Context, v: Tlv)
    requires v.Hello? && KeptInterval(v.interval)
    ensures DecodeHello(ctx, PayloadBytes(v)) == Decoded(Ok(v), 0, ctx)
  {
    var b := PayloadBytes(v);
    IntervalReadsBack(v.interval);
    U16ReadsBack(b, 0, v.helloFlags);
    U16ReadsBack(b, 2, v.seqno);
    U16ReadsBack(b, 4, EncodeInterval(v.interval));
    var plain := v.(transmit := None);
    if v.transmit.Some? {
      var t := U32Bytes(v.transmit.value);
      U32ReadsBack(t, 0, v.transmit.value);
      SubTlvsStep(plain, 0, SUB_TIMESTAMP, t, []);
      assert b[6..] == SubBytes(SUB_TIMESTAMP, t) + [];
    } else {
      assert b[6..] == [];
    }
  }

  lemma EchoReadsBack(v: Tlv, echo: Echo)
    requires v.Ihu? && v.echo.None?
    ensures SubTlvs(v, 0, SubBytes(SUB_TIMESTAMP, U32Bytes(echo.origin) + U32Bytes(echo.receive))) == Filled(v.(echo := Some(echo)), None)
  {
    var t := U32Bytes(echo.origin) + U32Bytes(echo.receive);
    U32ReadsBack(t, 0, echo.origin);
    U32ReadsBack(t, 4, echo.receive);
    SubTlvsStep(v, 0, SUB_TIMESTAMP, t, []);
    assert SubBytes(SUB_TIMESTAMP, t) + [] == SubBytes(SUB_TIMESTAMP, t);
  }

  lemma IhuSplits(b: Bytes, ae: Byte, rxCost: U16, interval: nat, a: Bytes, tail: Bytes)
    requires KeptInterval(interval) && b == [ae, 0] + U16Bytes(rxCost) + U16Bytes(EncodeInterval(interval)) + a + tail
    ensures |b| == 6 + |a| + |tail| && b[0] == ae && U16At(b, 2) == rxCost && DecodeInterval(U16At(b, 4)) == interval
    ensures b[6..] == a + tail && b[6 + |a|..] == tail
  {
    IntervalReadsBack(interval);
    U16ReadsBack(b, 2, rxCost);
    U16ReadsBack(b, 4, EncodeInterval(interval));
  }

  lemma IhuDecodes(ctx: Context, b: Bytes, v: Tlv, n: nat, echo: Option<Echo>)
    requires DefaultsFit(ctx.defaults) && |b| >= 6 + n && v.Ihu? && v.echo.None?
    requires U16At(b, 2) == v.rxCost && DecodeInterval(U16At(b, 4)) == v.interval
    requires DecodeAddress(ctx.defaults, b[6..], b[0], 0, -1) == Ok((v.address, n))
    requires SubTlvs(v, 0, b[6 + n..]).v == v.(echo := echo)
    ensures DecodeIhu(ctx, b) == Decoded(Ok(v.(echo := echo)), 0, ctx)
  {
    hide DecodeAddress, U16At, DecodeInterval;
  }

  lemma IhuReadsBack(ctx: Context, v: Sendable)
    requires v.Ihu? && DefaultsFit(ctx.defaults) && KeptInterval(v.interval) && KeptAddress(v.address)
    ensures DecodeIhu(ctx, PayloadBytes(v)) == Decoded(Ok(v), 0, ctx)
  {
    var b, a := PayloadBytes(v), AddressBytes(v.address, -1);
    var tail := if v.echo.None? then [] else SubBytes(SUB_TIMESTAMP, U32Bytes(v.echo.value.origin) + U32Bytes(v.echo.value.receive));
    IhuSplits(b, EncodingOf(v.address), v.rxCost, v.interval, a, tail);
    AddressRoundTripIff(ctx.defaults, v.address, tail);
    var bare := v.(echo := None);
    if v.echo.Some? {
      EchoReadsBack(bare, v.echo.value);
    }
    IhuDecodes(ctx, b, bare, |a|, v.echo);
  }

  lemma RouterIdReadsBack(ctx: Context, v: Sendable)
    requires v.RouterIdValue?
    ensures DecodeRouterId(ctx, PayloadBytes(v)) == Decoded(Ok(v), 0, AfterReceiving(ctx, v))
  {
    assert PayloadBytes(v)[2..10] == v.rid;
  }

  lemma NextHopReadsBack(ctx: Context, v: Sendable)
    requires v.NextHop? && DefaultsFit(ctx.defaults) && KeptAddress(v.hop)
    ensures DecodeNextHop(ctx, PayloadBytes(v)) == Decoded(Ok(v), 0, AfterReceiving(ctx, v))
  {
    var a := AddressBytes(v.hop, -1);
    assert PayloadBytes(v)[2..] == a + [];
    AddressRoundTripIff(ctx.defaults, v.hop, []);
  }

  lemma RouteRequestReadsBack(ctx: Context, v: Sendable)
    requires v.RouteRequest? && DefaultsFit(ctx.defaults) && Canonical(v)
    ensures DecodeRouteRequest(ctx, PayloadBytes(v)) == Decoded(Ok(Resolved(ctx, v)), 0, ctx)
  {
    var b, ae, w, tail := PayloadBytes(v), EncodingOf(v.prefix.addr), PrefixBytes(v.prefix), SourceBytes(v.source);
    PrefixRoundTripIff(ctx.defaults, v.prefix, tail);
    SourceReadsBack(RouteRequest(v.prefix, ae == AE_WILDCARD, None), ae, v.source, []);
    RequestSplits(b, ae, PrefixLen(v.prefix), w, tail);
    RequestDecodes(ctx, b, RouteRequest(v.prefix, ae == AE_WILDCARD, None), |w|, v.source);
  }

  lemma RequestSplits(b: Bytes, ae: Byte, plen: Byte, w: Bytes, tail: Bytes)
    requires b == [ae, plen] + w + tail
    ensures b[0] == ae && b[1] == plen && b[2..] == w + tail && b[2 + |w|..] == tail + []
  {
  }

  lemma RequestDecodes(ctx: Context, b: Bytes, v: Tlv, n: nat, source: Option<Prefix>)
    requires DefaultsFit(ctx.defaults) && |b| >= 2 + n && v.RouteRequest? && v.wildcard == (b[0] == AE_WILDCARD) && v.source.None?
    requires DecodePrefix(ctx.defaults, b[2..], b[0], b[1], 0) == Ok((v.prefix, n))
    requires SubTlvs(v, b[0], b[2 + n..]) == SubTlvs(RouteRequest(v.prefix, v.wildcard, source), b[0], [])
    ensures DecodeRouteRequest(ctx, b) == Decoded(Ok(RouteRequest(v.prefix, v.wildcard, source)), 0, ctx)
  {
    hide DecodePrefix;
  }

  lemma SeqnoRequestSplits(b: Bytes, v: Sendable, ae: Byte, plen: Byte, w: Bytes, tail: Bytes)
    requires v.SeqnoRequest? && b == [ae, plen] + U16Bytes(v.seqno) + [v.hopCount, 0] + v.rid + w + tail
    ensures |b| == 14 + |w| + |tail|
    ensures b[0] == ae && b[1] == plen && U16At(b, 2) == v.seqno && b[4] == v.hopCount && b[6..14] == v.rid
    ensures b[14..] == w + tail && b[14 + |w|..] == tail + []
  {
    U16ReadsBack(b, 2, v.seqno);
  }

  lemma SeqnoRequestDecodes(ctx: Context, b: Bytes, v: Tlv, n: nat, source: Option<Prefix>)
    requires DefaultsFit(ctx.defaults) && |b| >= 14 + n && v.SeqnoRequest? && v.source.None? && ValidId(v.rid)
    requires U16At(b, 2) == v.seqno && b[4] == v.hopCount && b[6..14] == v.rid
    requires DecodePrefix(ctx.defaults, b[14..], b[0], b[1], 0) == Ok((v.prefix, n))
    requires SubTlvs(v, b[0], b[14 + n..]) == SubTlvs(SeqnoRequest(v.seqno, v.hopCount, v.rid, v.prefix, source), b[0], [])
    ensures DecodeSeqnoRequest(ctx, b) == Decoded(Ok(SeqnoRequest(v.seqno, v.hopCount, v.rid, v.prefix, source)), 0, ctx)
  {
    hide DecodePrefix, U16At;
  }

  lemma SeqnoRequestReadsBack(ctx: Context, v: Sendable)
    requires v.SeqnoRequest? && DefaultsFit(ctx.defaults) && Canonical(v)
    ensures DecodeSeqnoRequest(ctx, PayloadBytes(v)) == Decoded(Ok(v), 0, ctx)
  {
    var b, ae, w, tail := PayloadBytes(v), EncodingOf(v.prefix.addr), PrefixBytes(v.prefix), SourceBytes(v.source);
    var bare := SeqnoRequest(v.seqno, v.hopCount, v.rid, v.prefix, None);
    SeqnoRequestSplits(b, v, ae, PrefixLen(v.prefix), w, tail);
    PrefixRoundTripIff(ctx.defaults, v.prefix, tail);
    SourceReadsBack(bare, ae, v.source, []);
    SeqnoRequestDecodes(ctx, b, bare, |w|, v.source);
  }

  // ---- Updates ----

  lemma UpdateSplits(b: Bytes, head: Bytes, interval: nat, seqno: SeqNo, metric: Metric, w: Bytes, tail: Bytes)
    requires |head| == 4 && KeptInterval(interval)
    requires b == head + U16Bytes(EncodeInterval(interval)) + U16Bytes(seqno) + U16Bytes(metric) + w + tail
    ensures |b| >= 10 && b[..4] == head && DecodeInterval(U16At(b, 4)) == interval && U16At(b, 6) == seqno && U16At(b, 8) == metric
    ensures b[10..] == w + tail && b[10 + |w|..] == tail
  {
    IntervalReadsBack(interval);
    U16ReadsBack(b, 4, EncodeInterval(interval));
    U16ReadsBack(b, 6, seqno);
    U16ReadsBack(b, 8, metric);
  }

  /** The TLV as it stands when its sub-TLVs are about to be read. */
  function Bare(v: Tlv, quality: Quality, source: Option<Prefix>): Tlv
    requires v.Announcement?
  {
    Announcement(v.flags, v.interval, v.seqno, v.metric, v.prefix, UNSPECIFIED_ID, NoAddr, v.v4ViaV6, quality, source)
  }

  lemma UpdateSubsReadBack(v: Sendable, ae: Byte)
    requires v.Announcement? && Canonical(v) && KeptSource(v.source, ae)
    ensures SubTlvs(Bare(v, NO_QUALITY, None), ae, SourceBytes(v.source) + QualitySubs(v.quality)) ==
            Filled(Bare(v, Marked(v.quality), v.source), None)
  {
    hide KeptSource, QualitySubs, SourceBytes, SubTlvs, KeptQuality;
    SourceReadsBack(Bare(v, NO_QUALITY, None), ae, v.source, QualitySubs(v.quality));
    QualityRoundTripIff(Bare(v, NO_QUALITY, v.source), ae, v.quality);
  }

  lemma UpdatePrefixReadsBack(ctx: Context, v: Sendable, tail: Bytes)
    requires v.Announcement? && DefaultsFit(ctx.defaults) && Canonical(v)
    ensures DecodePrefix(ctx.defaults, PrefixBytes(v.prefix) + tail, if v.v4ViaV6 then AE_IPV4 else EncodingOf(v.prefix.addr),
                         PrefixLen(v.prefix), 0) == Ok((v.prefix, |PrefixBytes(v.prefix)|))
    ensures v.v4ViaV6 ==> v.source.None?
    ensures !v.v4ViaV6 ==> EncodingOf(v.prefix.addr) != AE_V4_VIA_V6 && KeptSource(v.source, EncodingOf(v.prefix.addr))
  {
    if v.v4ViaV6 {
      ViaV6RoundTripIff(ctx.defaults, v.prefix, tail);
    } else {
      PrefixRoundTripIff(ctx.defaults, v.prefix, tail);
    }
  }

  lemma UpdateDecodes(ctx: Context, b: Bytes, v: Sendable, ae: Byte, n: nat)
    requires v.Announcement? && DefaultsFit(ctx.defaults) && |b| >= 10 + n && ae == UpdateAe(v.prefix, v.v4ViaV6)
    requires (v.v4ViaV6 <==> ae == AE_V4_VIA_V6) && b[..4] == [ae, v.flags, PrefixLen(v.prefix), 0]
    requires DecodeInterval(U16At(b, 4)) == v.interval && U16At(b, 6) == v.seqno && U16At(b, 8) == v.metric
    requires DecodePrefix(ctx.defaults, b[10..], if v.v4ViaV6 then AE_IPV4 else ae, PrefixLen(v.prefix), 0) == Ok((v.prefix, n))
    requires SubTlvs(Bare(v, NO_QUALITY, None), ae, b[10 + n..]) == Filled(Bare(v, Marked(v.quality), v.source), None)
    ensures DecodeUpdate(ctx, b) == Decoded(Ok(Resolved(ctx, v)), 0, AfterReceiving(ctx, v))
  {
    hide DecodePrefix, SubTlvs, AfterUpdate, EncodingOf, PrefixLen, U16At, DecodeInterval;
    assert b[0] == b[..4][0] && b[1] == b[..4][1] && b[2] == b[..4][2] && b[3] == b[..4][3];
  }

  lemma UpdatePayload(v: Sendable, ae: Byte)
    requires v.Announcement? && Canonical(v) && ae == UpdateAe(v.prefix, v.v4ViaV6)
    ensures PayloadBytes(v) == [ae, v.flags, PrefixLen(v.prefix), 0] + U16Bytes(EncodeInterval(v.interval)) + U16Bytes(v.seqno)
                               + U16Bytes(v.metric) + PrefixBytes(v.prefix) + (SourceBytes(v.source) + QualitySubs(v.quality))
    ensures KeptInterval(v.interval) && (v.v4ViaV6 <==> ae == AE_V4_VIA_V6) && (!v.v4ViaV6 ==> ae == EncodingOf(v.prefix.addr))
  {
    hide U16Bytes, PrefixBytes, SourceBytes, QualitySubs, PrefixLen, KeptQuality, KeptSource;
  }

  // ---- Packets ----

  /** Every canonical TLV is read back from its payload, and leaves the state the model says. */
  lemma TlvReadsBack(ctx: Context, v: Sendable)
    requires DefaultsFit(ctx.defaults) && Canonical(v)
    ensures Payload(ctx, TypeOf(v), PayloadBytes(v)) == Decoded(Ok(Resolved(ctx, v)), 0, AfterReceiving(ctx, v))
  {
    hide Payload, PayloadBytes, DecodeHello, DecodeIhu, DecodeRouterId, DecodeNextHop, DecodeUpdate, DecodeRouteRequest, DecodeSeqnoRequest;
    hide AfterUpdate, EncodingOf, HopFor, UpdateAe, KeptPrefix, KeptAddress, KeptQuality, KeptViaV6, KeptInterval;
    hide SourceBytes, QualitySubs, PrefixBytes, PrefixLen, U16Bytes, SubTlvs, DecodePrefix, DecodeInterval;
    if v.Pad1? || v.PadN? || v.AckRequest? || v.Ack? {
      PlainReadsBackTlv(ctx, v);
    } else {
      Dispatch(ctx, PayloadBytes(v));
      match v
      case Hello(_, _, _, _) => HelloReadsBack(ctx, v);
      case Ihu(_, _, _, _) => IhuReadsBack(ctx, v);
      case RouterIdValue(_) => RouterIdReadsBack(ctx, v);
      case NextHop(_) => NextHopReadsBack(ctx, v);
      case Announcement(_, _, _, _, _, _, _, _, _, _) =>
        var b, ae, tail := PayloadBytes(v), UpdateAe(v.prefix, v.v4ViaV6), SourceBytes(v.source) + QualitySubs(v.quality);
        UpdatePayload(v, ae);
        UpdatePrefixReadsBack(ctx, v, tail);
        UpdateSubsReadBack(v, ae);
        UpdateSplits(b, [ae, v.flags, PrefixLen(v.prefix), 0], v.interval, v.seqno, v.metric, PrefixBytes(v.prefix), tail);
        UpdateDecodes(ctx, b, v, ae, |PrefixBytes(v.prefix)|);
      case RouteRequest(_, _, _) => RouteRequestReadsBack(ctx, v);
      case SeqnoRequest(_, _, _, _, _) => SeqnoRequestReadsBack(ctx, v);
    }
  }

  lemma Dispatch(ctx: Context, b: Bytes)
    requires DefaultsFit(ctx.defaults)
    ensures Payload(ctx, 4, b) == DecodeHello(ctx, b) && Payload(ctx, 5, b) == DecodeIhu(ctx, b)
    ensures Payload(ctx, 6, b) == DecodeRouterId(ctx, b) && Payload(ctx, 7, b) == DecodeNextHop(ctx, b)
    ensures Payload(ctx, 8, b) == DecodeUpdate(ctx, b) && Payload(ctx, 9, b) == DecodeRouteRequest(ctx, b)
    ensures Payload(ctx, 10, b) == DecodeSeqnoRequest(ctx, b)
  {
    hide DecodeHello, DecodeIhu, DecodeRouterId, DecodeNextHop, DecodeUpdate, DecodeRouteRequest, DecodeSeqnoRequest;
  }

  lemma PlainReadsBackTlv(ctx: Context, v: Sendable)
    requires DefaultsFit(ctx.defaults) && Canonical(v) && (v.Pad1? || v.PadN? || v.AckRequest? || v.Ack?)
    ensures Payload(ctx, TypeOf(v), PayloadBytes(v)) == Decoded(Ok(Resolved(ctx, v)), 0, AfterReceiving(ctx, v))
  {
    var b := PayloadBytes(v);
    if v.AckRequest? {
      IntervalReadsBack(v.interval);
      U16ReadsBack(b, 2, v.opq);
      U16ReadsBack(b, 4, EncodeInterval(v.interval));
    } else if v.Ack? {
      U16ReadsBack(b, 0, v.opq);
    }
  }

  /** No canonical payload outgrows the length octet. */
  lemma PayloadFits(v: Sendable)
    requires Canonical(v)
    ensures |PayloadBytes(v)| < 256 && (v.Pad1? ==> PayloadBytes(v) == [])
  {
    match v
    case Announcement(_, _, _, _, p, _, _, _, _, source) =>
      WrittenPrefixIsShort(p);
      if source.Some? {
        WrittenPrefixIsShort(source.value);
      }
    case RouteRequest(p, _, source) =>
      WrittenPrefixIsShort(p);
      if source.Some? {
        WrittenPrefixIsShort(source.value);
      }
    case SeqnoRequest(_, _, _, p, source) =>
      WrittenPrefixIsShort(p);
      if source.Some? {
        WrittenPrefixIsShort(source.value);
      }
    case _ =>
  }

  predicate Padding(v: Tlv) { v.Pad1? || v.PadN? }

  lemma FirstOf(ctx: Context, t: Byte, p: Bytes, b: Bytes, trailer: bool)
    requires DefaultsFit(ctx.defaults) && |p| < 256 && (trailer ==> IsTrailerType(t))
    requires b == if t == 0 then [0] else SubBytes(t, p)
    requires t == 0 ==> p == []
    requires Payload(ctx, t, p).result.Ok? && Payload(ctx, t, p).left == 0
    ensures b != [] && First(ctx, b, trailer) == Taken(Payload(ctx, t, p).result, |b|, Payload(ctx, t, p).ctx)
  {
    hide Payload;
    assert Header(b) == Ok((t, |p|, |b| - |p|));
    assert b[|b| - |p|..|b|] == p;
  }

  function AfterAll(ctx: Context, vs: seq<Sendable>): Context {
    if vs == [] then ctx else AfterReceiving(AfterAll(ctx, vs[..|vs| - 1]), vs[|vs| - 1])
  }

  function ResolvedAll(ctx: Context, vs: seq<Sendable>): (r: seq<Tlv>)
    ensures |r| == |vs|
  {
    if vs == [] then []
    else ResolvedAll(ctx, vs[..|vs| - 1]) + [Resolved(AfterAll(ctx, vs[..|vs| - 1]), vs[|vs| - 1])]
  }

  predicate AllCanonical(vs: seq<Sendable>) { forall v | v in vs :: Canonical(v) }

  lemma OneReadsBack(ctx: Context, v: Sendable, trailer: bool)
    requires DefaultsFit(ctx.defaults) && Canonical(v) && (trailer ==> Padding(v))
    ensures Tlvs(ctx, TlvBytes(v), trailer) == Parsed(Ok([Resolved(ctx, v)]), AfterReceiving(ctx, v))
  {
    hide Resolved, AfterReceiving, Canonical, PayloadBytes, Payload, First, Tlvs;
    TlvReadsBack(ctx, v);
    PayloadFits(v);
    FirstOf(ctx, TypeOf(v), PayloadBytes(v), TlvBytes(v), trailer);
    SingleTlv(ctx, TlvBytes(v), trailer);
  }

  lemma SingleTlv(ctx: Context, b: Bytes, trailer: bool)
    requires DefaultsFit(ctx.defaults) && b != [] && First(ctx, b, trailer).result.Ok? && First(ctx, b, trailer).size == |b|
    ensures Tlvs(ctx, b, trailer) == Parsed(Ok([First(ctx, b, trailer).result.value]), First(ctx, b, trailer).ctx)
  {
    hide First;
    var d := First(ctx, b, trailer);
    assert b[d.size..] == [];
    assert Tlvs(d.ctx, [], trailer) == Parsed(Ok([]), d.ctx);
    assert [d.result.value] + [] == [d.result.value];
  }

  lemma {:induction false} TlvsReadBack(ctx: Context, vs: seq<Sendable>, trailer: bool)
    requires DefaultsFit(ctx.defaults) && AllCanonical(vs) && (trailer ==> forall v | v in vs :: Padding(v))
    ensures Tlvs(ctx, TlvsBytes(vs), trailer) == Parsed(Ok(ResolvedAll(ctx, vs)), AfterAll(ctx, vs))
  {
    hide Resolved, AfterReceiving, Canonical, First, TlvBytes;
    if vs != [] {
      var front, v := vs[..|vs| - 1], vs[|vs| - 1];
      assert AllCanonical(front) && forall w | w in front :: w in vs;
      TlvsReadBack(ctx, front, trailer);
      assert Canonical(v);
      OneReadsBack(AfterAll(ctx, front), v, trailer);
      TlvsConcat(ctx, TlvsBytes(front), TlvBytes(v), trailer);
    }
  }

  lemma {:induction false} PaddingIsResolved(ctx: Context, vs: seq<Sendable>)
    requires forall v | v in vs :: Padding(v)
    ensures ResolvedAll(ctx, vs) == vs && AfterAll(ctx, vs) == ctx
  {
    if vs != [] {
      var front, v := vs[..|vs| - 1], vs[|vs| - 1];
      assert Padding(v) && vs == front + [v];
      PaddingIsResolved(ctx, front);
    }
  }

  lemma PacketSplits(body: Bytes, trailer: Bytes, b: Bytes)
    requires |body| < 0x1_0000 && b == [MAGIC, VERSION] + U16Bytes(|body|) + body + trailer
    ensures |b| == 4 + |body| + |trailer| && b[0] == MAGIC && b[1] == VERSION && U16At(b, 2) == |body|
    ensures b[4..4 + |body|] == body && b[4 + |body|..] == trailer
  {
    U16ReadsBack(b, 2, |body|);
  }

  /** Decoding with a fresh parser undoes encoding: the same body and trailer, each update carrying the router-id
      and the next hop that the TLVs before it determine. */
  lemma PacketRoundTrip(body: seq<Sendable>, trailer: seq<Sendable>)
    requires AllCanonical(body) && AllCanonical(trailer) && forall v | v in trailer :: Padding(v)
    requires |TlvsBytes(body)| < 0x1_0000
    ensures DecodePacket(FRESH, PacketBytes(body, trailer)) ==
            Received(Ok(Packet(ResolvedAll(FRESH, body), trailer)), AfterAll(FRESH, body))
  {
    hide AllCanonical, TlvsBytes, Tlvs, ResolvedAll, AfterAll;
    TlvsReadBack(FRESH, body, false);
    TlvsReadBack(AfterAll(FRESH, body), trailer, true);
    PaddingIsResolved(AfterAll(FRESH, body), trailer);
    PacketSplits(TlvsBytes(body), TlvsBytes(trailer), PacketBytes(body, trailer));
  }

  /** In particular a packet whose derived fields are already right comes back as it is. */
  lemma ResolvedPacketRoundTrip(body: seq<Sendable>, trailer: seq<Sendable>)
    requires AllCanonical(body) && AllCanonical(trailer) && forall v | v in trailer :: Padding(v)
    requires |TlvsBytes(body)| < 0x1_0000 && ResolvedAll(FRESH, body) == body
    ensures DecodePacket(FRESH, PacketBytes(body, trailer)).result == Ok(Packet(body, trailer))
  {
    PacketRoundTrip(body, trailer);
  }

  // ---- Which router-id and next hop an update carries ----

  predicate NamesRouter(v: Tlv) { v.RouterIdValue? || (v.Announcement? && SetsRouterId(v.flags)) }

  /** The router-id a TLV names: its own, or for an update with the router-id flag the one its prefix contains. */
  function Named(v: Sendable): RouterId
    requires NamesRouter(v)
  {
    if v.RouterIdValue? then v.rid else RouterIdFromAddr(v.prefix.addr)
  }

  lemma {:induction false} AllAt(ctx: Context, vs: seq<Sendable>, i: nat)
    requires i < |vs|
    ensures ResolvedAll(ctx, vs)[i] == Resolved(AfterAll(ctx, vs[..i]), vs[i])
  {
    hide Resolved;
    var n := |vs| - 1;
    if i < n {
      AllAt(ctx, vs[..n], i);
      assert vs[..n][..i] == vs[..i];
    }
  }

  lemma {:induction false} RouterIdStays(ctx: Context, vs: seq<Sendable>, j: nat, i: nat)
    requires j < i <= |vs| && NamesRouter(vs[j]) && forall k | j < k < i :: !NamesRouter(vs[k])
    ensures AfterAll(ctx, vs[..i]).rid == Named(vs[j])
  {
    assert vs[..i][..i - 1] == vs[..i - 1];
    if j < i - 1 {
      RouterIdStays(ctx, vs, j, i - 1);
    }
  }

  /** An update carries the router-id named last, be it by a RouterId TLV or by an update with the router-id flag,
      possibly itself. */
  lemma UpdateCarriesRouterId(ctx: Context, vs: seq<Sendable>, j: nat, i: nat)
    requires j <= i < |vs| && NamesRouter(vs[j]) && vs[i].Announcement?
    requires forall k | j < k <= i :: !NamesRouter(vs[k])
    ensures ResolvedAll(ctx, vs)[i].Announcement? && ResolvedAll(ctx, vs)[i].rid == Named(vs[j])
  {
    AllAt(ctx, vs, i);
    if j < i {
      RouterIdStays(ctx, vs, j, i);
    }
  }

  predicate SetsHop(v: Sendable, f: Family) { v.NextHop? && HopFamily(EncodingOf(v.hop)) == f }

  lemma {:induction false} HopStays(ctx: Context, vs: seq<Sendable>, j: nat, i: nat, f: Family)
    requires j < i <= |vs| && SetsHop(vs[j], f) && forall k | j < k < i :: !SetsHop(vs[k], f)
    ensures f in AfterAll(ctx, vs[..i]).hops && AfterAll(ctx, vs[..i]).hops[f] == vs[j].hop
  {
    hide EncodingOf;
    assert vs[..i][..i - 1] == vs[..i - 1];
    if j < i - 1 {
      HopStays(ctx, vs, j, i - 1, f);
    }
  }

  /** An update carries the last next hop given for the family of its prefix; one with a wildcard prefix carries none. */
  lemma UpdateCarriesHop(ctx: Context, vs: seq<Sendable>, j: nat, i: nat)
    requires j < i < |vs| && vs[i].Announcement?
    requires var f := FamilyOf(UpdateAe(vs[i].prefix, vs[i].v4ViaV6));
             SetsHop(vs[j], f) && forall k | j < k < i :: !SetsHop(vs[k], f)
    ensures ResolvedAll(ctx, vs)[i].Announcement? && ResolvedAll(ctx, vs)[i].hop == vs[j].hop
  {
    hide EncodingOf;
    AllAt(ctx, vs, i);
    HopStays(ctx, vs, j, i, FamilyOf(UpdateAe(vs[i].prefix, vs[i].v4ViaV6)));
  }
}
