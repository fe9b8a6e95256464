/** Which octets mean what on the wire, in numbers: what an accepted TLV and an accepted packet say, octet by octet, and what
    they leave in the state of the parser. */
module Reading {
  import opened Net
  import opened BabelTypes
  import opened Wire
  import opened Decoder

  // ---- Addresses and prefixes ----

  /** Octet i of an address, read from src: the bits inside the length are kept. */
  predicate KeepsBits(src: Byte, bits: int, i: nat, o: Byte) {
    var beyond := 8 * i + 8 - bits;
    if beyond <= 0 then o == src
    else if beyond >= 8 then o == 0
    else
      var unit := if beyond == 1 then 2 else if beyond == 2 then 4 else if beyond == 3 then 8 else if beyond == 4 then 16
                  else if beyond == 5 then 32 else if beyond == 6 then 64 else 128;
      o == src - src % unit
  }

  function SizeOf(ae: Byte): nat { if ae == 2 then 16 else 4 }

  /** A length of 128 or more counts as none, and none as a full address. */
  function BitsOf(ae: Byte, plen: Byte): nat { if plen < 128 then plen else 8 * SizeOf(ae) }

  /** Octet i comes from the default address of the encoding if it is omitted, and otherwise from the message. */
  predicate OctetFrom(defaults: map<Byte, Addr>, b: Bytes, ae: Byte, omitted: nat, bits: nat, i: nat, o: Byte) {
    if 8 * i >= bits then o == 0
    else if i < omitted then ae in defaults && i < |defaults[ae].Slice()| && KeepsBits(defaults[ae].Slice()[i], bits, i, o)
    else i - omitted < |b| && KeepsBits(b[i - omitted], bits, i, o)
  }

  predicate OctetsFrom(defaults: map<Byte, Addr>, b: Bytes, ae: Byte, omitted: nat, bits: nat, o: Bytes) {
    |o| == SizeOf(ae) && forall i | 0 <= i < |o| :: OctetFrom(defaults, b, ae, omitted, bits, i, o[i])
  }

  /** Encoding 0 is ::, 1 an IPv4 address, 2 an IPv6 address, 3 an IPv6 address in fe80::/64, and 4 an IPv4 address mapped into
      IPv6. */
  predicate AddressReads(defaults: map<Byte, Addr>, b: Bytes, ae: Byte, omitted: nat, bits: nat, a: Addr, size: nat) {
    match ae
    case 0 => a == V6([0, 0, 0, 0, 0, 0, 0, 0, 0, 0, 0, 0, 0, 0, 0, 0]) && size == 0
    case 1 => a.V4? && OctetsFrom(defaults, b, 1, omitted, bits, a.octets) && size == (bits + 7) / 8 - omitted
    case 2 => a.V6? && OctetsFrom(defaults, b, 2, omitted, bits, a.octets) && size == (bits + 7) / 8 - omitted
    case 3 => |b| >= 8 && a == V6([254, 128, 0, 0, 0, 0, 0, 0] + b[..8]) && size == 8
    case 4 =>
      && a.V6? && |a.octets| == 16 && a.octets[..12] == [0, 0, 0, 0, 0, 0, 0, 0, 0, 0, 255, 255]
      && OctetsFrom(defaults, b, 4, omitted, bits, a.octets[12..]) && size == (bits + 7) / 8 - omitted
    case _ => false
  }

  /** What can be read at all. */
  predicate Readable(defaults: map<Byte, Addr>, b: Bytes, ae: Byte, omitted: nat, bits: nat) {
    match ae
    case 0 => true
    case 3 => omitted == 0 && |b| >= 8
    case _ =>
      && ae in {1, 2, 4} && bits <= 8 * SizeOf(ae) && omitted <= (bits + 7) / 8 && |b| >= (bits + 7) / 8 - omitted
      && (omitted > 0 ==> ae in defaults)
  }

  lemma MaskedOctet(src: Byte, bits: nat, i: nat)
    ensures KeepsBits(src, bits, i, KeepHigh(src, KeptBits(bits, i)))
  {
  }

  lemma OctetReads(defaults: map<Byte, Addr>, b: Bytes, ae: Byte, omitted: nat, bits: nat, o: Bytes, i: nat)
    requires i < |o| && omitted <= Ceil8(bits) <= |o| && MaskOctets(o, bits) == o && Copies(o, bits, omitted, Ceil8(bits), b)
    requires omitted > 0 ==> ae in defaults && Copies(o, bits, 0, omitted, defaults[ae].Slice())
    ensures OctetFrom(defaults, b, ae, omitted, bits, i, o[i])
  {
    hide KeepHigh, KeepsBits;
    if 8 * i >= bits {
      assert MaskOctets(o, bits)[i] == KeepHigh(o[i], KeptBits(bits, i)) && KeptBits(bits, i) == 0;
    } else if i < omitted {
      MaskedOctet(defaults[ae].Slice()[i], bits, i);
    } else {
      MaskedOctet(b[i - omitted], bits, i);
    }
  }

  lemma AssembledReads(defaults: map<Byte, Addr>, b: Bytes, ae: Byte, omitted: nat, bits: nat)
    requires DefaultsFit(defaults) && ae in {1, 2, 4} && (omitted > 0 ==> ae in defaults)
    requires bits <= 8 * SizeOf(ae) && omitted <= Ceil8(bits) && Ceil8(bits) - omitted <= |b|
    ensures OctetsFrom(defaults, b, ae, omitted, bits, Assembled(defaults, b, ae, omitted, bits))
  {
    hide Assembled, MaskOctets, Copies, OctetFrom, DefaultsFit;
    AssembledIsMasked(defaults, b, ae, omitted, bits);
    var o := Assembled(defaults, b, ae, omitted, bits);
    forall i | 0 <= i < |o|
      ensures OctetFrom(defaults, b, ae, omitted, bits, i, o[i])
    {
      OctetReads(defaults, b, ae, omitted, bits, o, i);
    }
  }

  lemma AddressMeans(defaults: map<Byte, Addr>, b: Bytes, ae: Byte, omitted: Byte, plen: int, bits: nat)
    requires DefaultsFit(defaults) && -128 <= plen < 128 && bits == if plen < 0 then 8 * SizeOf(ae) else plen
    ensures var r := DecodeAddress(defaults, b, ae, omitted, plen);
            && (r.Ok? <==> Readable(defaults, b, ae, omitted, bits))
            && (r.Ok? ==> AddressReads(defaults, b, ae, omitted, bits, r.value.0, r.value.1))
  {
    var r := DecodeAddress(defaults, b, ae, omitted, plen);
    if r.Ok? && ae in {1, 2, 4} {
      AssembledReads(defaults, b, ae, omitted, bits);
      var o := Assembled(defaults, b, ae, omitted, bits);
      assert ae == 4 ==> (MAPPED + o)[..12] == MAPPED && (MAPPED + o)[12..] == o;
    }
    hide OctetsFrom, Assembled, DefaultsFit;
  }

  /** A prefix: its address and, if it fits, the length announced. */
  predicate PrefixReads(defaults: map<Byte, Addr>, b: Bytes, ae: Byte, plen: Byte, omitted: Byte, p: Prefix, size: nat) {
    && AddressReads(defaults, b, ae, omitted, BitsOf(ae, plen), p.addr, size)
    && p.bits == if plen <= (if ae == 1 then 32 else 128) then plen else -1
  }

  lemma PrefixMeans(defaults: map<Byte, Addr>, b: Bytes, ae: Byte, plen: Byte, omitted: Byte)
    requires DefaultsFit(defaults)
    ensures var r := DecodePrefix(defaults, b, ae, plen, omitted);
            && (r.Ok? <==> Readable(defaults, b, ae, omitted, BitsOf(ae, plen)))
            && (r.Ok? ==> PrefixReads(defaults, b, ae, plen, omitted, r.value.0, r.value.1))
  {
    AddressMeans(defaults, b, ae, omitted, Int8(plen), BitsOf(ae, plen));
    hide AddressReads, Readable, DefaultsFit;
  }

  // ---- Sub-TLVs ----

  function Sixteen(b: Bytes, i: nat): int
    requires i + 2 <= |b|
  {
    256 * b[i] as int + b[i + 1] as int
  }

  function ThirtyTwo(b: Bytes, i: nat): int
    requires i + 4 <= |b|
  {
    65536 * Sixteen(b, i) + Sixteen(b, i + 2)
  }

  /** All ones stand for what is not known. */
  function KnownOr(v: int, unknown: int): int { if v == 4294967295 then unknown else v }

  /** A sub-TLV of type t with payload b that is understood: what it adds to the TLV. */
  predicate SubReads(v: Tlv, ae: Byte, t: Byte, b: Bytes, w: Tlv) {
    match v
    case Hello(_, _, _, _) => t == 3 && |b| == 4 && w == v.(transmit := Some(ThirtyTwo(b, 0)))
    case Ihu(_, _, _, _) => t == 3 && |b| == 8 && w == v.(echo := Some(Echo(ThirtyTwo(b, 0), ThirtyTwo(b, 4))))
    case Announcement(_, _, _, _, _, _, _, _, q, _) =>
      if t == 4 then
        |b| == 8 && w == v.(quality := q.(metricsPresent := true, bottleneck := KnownOr(ThirtyTwo(b, 0), 0),
                                          rtt := KnownOr(ThirtyTwo(b, 4), -1)))
      else if t == 5 then
        |b| == 12 && w == v.(quality := q.(qualityPresent := true, jitter := KnownOr(ThirtyTwo(b, 0), -1),
                                           age := KnownOr(ThirtyTwo(b, 4), -1), confidence := Sixteen(b, 8)))
      else t == 128 && SourceReads(ae, b, w) && w.Announcement? && w.quality == q && w.(quality := q, source := v.source) == v
    case RouteRequest(p, wildcard, _) => t == 128 && SourceReads(ae, b, w) && w == RouteRequest(p, wildcard, w.source)
    case SeqnoRequest(q, hopCount, rid, p, _) =>
      t == 128 && SourceReads(ae, b, w) && w == SeqnoRequest(q, hopCount, rid, p, w.source)
    case _ => false
  }

  /** A source prefix is a length and as many octets. */
  predicate SourceReads(ae: Byte, b: Bytes, w: Tlv) {
    && (w.Announcement? || w.RouteRequest? || w.SeqnoRequest?) && w.source.Some? && |b| >= 1
    && PrefixReads(map[], b[1..], ae, b[0], 0, w.source.value, |b| - 1)
  }

  /** The numbers that each TLV knows. */
  predicate KnownSub(v: Tlv, t: Byte) {
    match v
    case Hello(_, _, _, _) => t == 3
    case Ihu(_, _, _, _) => t == 3
    case Announcement(_, _, _, _, _, _, _, _, _, _) => t == 4 || t == 5 || t == 128
    case RouteRequest(_, _, _) => t == 128
    case SeqnoRequest(_, _, _, _, _) => t == 128
    case _ => false
  }

  lemma ThirtyTwoIsU32(b: Bytes, i: nat)
    requires i + 4 <= |b|
    ensures U32At(b, i) == ThirtyTwo(b, i)
  {
  }

  lemma SourceMeans(v: Tlv, ae: Byte, b: Bytes)
    requires v.Announcement? || v.RouteRequest? || v.SeqnoRequest?
    ensures var s := SourceSub(v, ae, b); s.error.None? && s.left == 0 ==> SourceReads(ae, b, s.v)
    ensures SourceSub(v, ae, b).error != Some(UnsupportedValue)
  {
    if b != [] {
      PrefixMeans(map[], b[1..], ae, b[0], 0);
      NoUnsupported(b[1..], ae, Int8(b[0]));
      hide PrefixReads, DecodePrefix;
    }
  }

  lemma NoUnsupported(b: Bytes, ae: Byte, plen: int)
    requires -128 <= plen < 128
    ensures DecodeAddress(map[], b, ae, 0, plen) != Err(UnsupportedValue)
  {
    hide Assembled;
  }

  lemma UpdateSubMeans(v: Tlv, ae: Byte, t: Byte, b: Bytes)
    requires v.Announcement?
    ensures var s := UpdateSub(v, ae, t, b);
            && (s.error == Some(UnsupportedValue) <==> !(t == 4 || t == 5 || t == 128))
            && (s.error.None? && s.left == 0 ==> SubReads(v, ae, t, b, s.v))
  {
    hide SourceReads, SourceSub;
    var s := UpdateSub(v, ae, t, b);
    if t == 128 {
      SourceMeans(v, ae, b);
      SourceKeeps(v, ae, b);
    } else if t == 4 && |b| >= 8 {
      ThirtyTwoIsU32(b, 0);
      ThirtyTwoIsU32(b, 4);
    } else if t == 5 && |b| >= 12 {
      ThirtyTwoIsU32(b, 0);
      ThirtyTwoIsU32(b, 4);
      assert U16At(b, 8) == Sixteen(b, 8);
    }
    hide U32At, U16At, ThirtyTwo, Sixteen;
  }

  /** A sub-TLV that a TLV does not know is reported as such, and one that it knows is accepted only as laid out. */
  lemma SubMeans(v: Tlv, ae: Byte, t: Byte, b: Bytes)
    ensures var s := Sub(v, ae, t, b);
            && (s.error == Some(UnsupportedValue) <==> !KnownSub(v, t))
            && (s.error.None? && s.left == 0 ==> SubReads(v, ae, t, b, s.v))
  {
    hide SourceReads, SourceSub, UpdateSub;
    match v
    case Announcement(_, _, _, _, _, _, _, _, _, _) => UpdateSubMeans(v, ae, t, b);
    case RouteRequest(_, _, _) =>
      SourceMeans(v, ae, b);
      SourceKeeps(v, ae, b);
    case SeqnoRequest(_, _, _, _, _) =>
      SourceMeans(v, ae, b);
      SourceKeeps(v, ae, b);
    case _ =>
      if |b| >= 4 {
        ThirtyTwoIsU32(b, 0);
      }
      if |b| >= 8 {
        ThirtyTwoIsU32(b, 4);
      }
  }

  lemma SourceKeeps(v: Tlv, ae: Byte, b: Bytes)
    requires v.Announcement? || v.RouteRequest? || v.SeqnoRequest?
    ensures SameKind(v, SourceSub(v, ae, b).v)
    ensures v.Announcement? ==> SourceSub(v, ae, b).v.Announcement? && SourceSub(v, ae, b).v.quality == v.quality
  {
    hide DecodePrefix;
  }

  // ---- TLVs ----

  /** A router-id is eight octets, not all 0 and not all 255. */
  predicate Identifies(rid: RouterId) {
    && |rid| == 8 && (exists i :: 0 <= i < 8 && rid[i] != 0) && (exists i :: 0 <= i < 8 && rid[i] != 255)
  }

  /** Intervals are hundredths of a second; the milliseconds are counted modulo 65536. */
  predicate Millis(b: Bytes, i: nat, interval: nat) { i + 2 <= |b| && interval == 10 * Sixteen(b, i) % 65536 }

  /** An IPv4 prefix with an IPv6 next hop is read like one with an IPv4 next hop. */
  function ReadAs(ae: Byte): Byte { if ae == 4 then 1 else ae }

  /** What an accepted TLV of type t with payload b says, apart from what sub-TLVs add. */
  ghost predicate TlvReads(ctx: Context, t: Byte, b: Bytes, v: Tlv) {
    match v
    case Pad1 => t == 0
    case PadN(n) => t == 1 && n == |b|
    case AckRequest(opq, interval) => t == 2 && |b| >= 6 && opq == Sixteen(b, 2) && Millis(b, 4, interval)
    case Ack(opq) => t == 3 && |b| >= 2 && opq == Sixteen(b, 0)
    case Hello(flags, seqno, interval, _) =>
      t == 4 && |b| >= 6 && flags == Sixteen(b, 0) && seqno == Sixteen(b, 2) && Millis(b, 4, interval)
    case Ihu(rxCost, interval, a, _) =>
      && t == 5 && |b| >= 6 && rxCost == Sixteen(b, 2) && Millis(b, 4, interval)
      && exists size :: AddressReads(ctx.defaults, b[6..], b[0], 0, 8 * SizeOf(b[0]), a, size)
    case RouterIdValue(rid) => t == 6 && |b| >= 10 && rid == b[2..10] && Identifies(rid)
    case NextHop(a) =>
      t == 7 && |b| >= 2 && exists size :: AddressReads(ctx.defaults, b[2..], b[0], 0, 8 * SizeOf(b[0]), a, size)
    case Announcement(flags, interval, seqno, metric, p, _, _, v4ViaV6, _, _) =>
      && t == 8 && |b| >= 10 && flags == b[1] && Millis(b, 4, interval) && seqno == Sixteen(b, 6) && metric == Sixteen(b, 8)
      && v4ViaV6 == (b[0] == 4)
      && exists size :: PrefixReads(ctx.defaults, b[10..], ReadAs(b[0]), b[2], b[3], p, size)
    case RouteRequest(p, wildcard, _) =>
      && t == 9 && |b| >= 2 && wildcard == (b[0] == 0)
      && exists size :: PrefixReads(ctx.defaults, b[2..], b[0], b[1], 0, p, size)
    case SeqnoRequest(seqno, hopCount, rid, p, _) =>
      && t == 10 && |b| >= 14 && seqno == Sixteen(b, 2) && hopCount == b[4] && rid == b[6..14] && Identifies(rid)
      && exists size :: PrefixReads(ctx.defaults, b[14..], b[0], b[1], 0, p, size)
  }

  /** The router-id that an address contains: the last eight octets, or those of an IPv4 address behind four zeros. */
  predicate IdIn(a: Addr, rid: RouterId) {
    |rid| == 8 && if a.V4? then rid == [0, 0, 0, 0] + a.octets
    else a.V6? && |a.octets| == 16 && rid == if AllZeroTo(a.octets, 10) && a.octets[10] == 255 && a.octets[11] == 255
                                             then [0, 0, 0, 0] + a.octets[12..] else a.octets[8..]
  }

  predicate AllZeroTo(o: Bytes, n: nat) { n <= |o| && forall i | 0 <= i < n :: o[i] == 0 }

  /** The address family that a next hop is kept for, and that an update asks for. */
  function HopNumber(ae: Byte): Family { if ae == 1 || ae == 4 then IPv4 else IPv6 }

  function WantedHop(ae: Byte): Family { if ae == 1 then IPv4 else if ae == 2 || ae == 3 || ae == 4 then IPv6 else AnyFamily }

  /** What the TLV leaves in the state: a RouterId its number, a NextHop its address, an update its address as the default of the
      encoding if flag 128 is set, and the router-id in it if flag 64 is. */
  predicate StateReads(ctx: Context, t: Byte, b: Bytes, v: Tlv, ctx': Context) {
    match v
    case RouterIdValue(rid) => ctx' == ctx.(rid := rid)
    case NextHop(a) => |b| >= 1 && ctx' == ctx.(hops := ctx.hops[HopNumber(b[0]) := a])
    case Announcement(flags, _, _, _, p, rid, hop, _, _, _) =>
      && |b| >= 1 && ctx'.hops == ctx.hops
      && ctx'.defaults == (if flags >= 128 then ctx.defaults[b[0] := p.addr] else ctx.defaults)
      && (if flags % 128 >= 64 then IdIn(p.addr, ctx'.rid) else ctx'.rid == ctx.rid)
      && rid == ctx'.rid && hop == (if WantedHop(b[0]) in ctx.hops then ctx.hops[WantedHop(b[0])] else NoAddr)
    case _ => ctx' == ctx
  }

  lemma SixteenIsU16(b: Bytes)
    ensures forall i: nat | i + 2 <= |b| :: U16At(b, i) == Sixteen(b, i)
  {
  }

  lemma ValidIdentifies(rid: RouterId)
    ensures ValidId(rid) <==> Identifies(rid)
  {
    if |rid| == 8 && !(exists i :: 0 <= i < 8 && rid[i] != 0) {
      assert rid == UNSPECIFIED_ID;
    }
    if |rid| == 8 && !(exists i :: 0 <= i < 8 && rid[i] != 255) {
      assert rid == ALL_ONES_ID;
    }
  }

  lemma IdOfAddress(a: Addr)
    requires a.Valid() && !a.NoAddr?
    ensures IdIn(a, RouterIdFromAddr(a))
  {
    assert Zeros(4) == [0, 0, 0, 0];
  }

  lemma FlagsMean(flags: Byte)
    ensures SetsDefault(flags) <==> flags >= 128
    ensures SetsRouterId(flags) <==> flags % 128 >= 64
  {
  }

  lemma HelloMeans(ctx: Context, b: Bytes)
    requires DecodeHello(ctx, b).result.Ok?
    ensures TlvReads(ctx, 4, b, DecodeHello(ctx, b).result.value)
  {
    hide SubTlvs, U16At, Sixteen;
    SixteenIsU16(b);
  }

  lemma IhuMeans(ctx: Context, b: Bytes)
    requires DefaultsFit(ctx.defaults) && DecodeIhu(ctx, b).result.Ok?
    ensures TlvReads(ctx, 5, b, DecodeIhu(ctx, b).result.value)
  {
    hide SubTlvs, U16At, Sixteen, AddressReads, DecodeAddress, DefaultsFit;
    SixteenIsU16(b);
    AddressMeans(ctx.defaults, b[6..], b[0], 0, -1, 8 * SizeOf(b[0]));
  }

  lemma NextHopMeans(ctx: Context, b: Bytes)
    requires DefaultsFit(ctx.defaults) && DecodeNextHop(ctx, b).result.Ok?
    ensures TlvReads(ctx, 7, b, DecodeNextHop(ctx, b).result.value)
    ensures StateReads(ctx, 7, b, DecodeNextHop(ctx, b).result.value, DecodeNextHop(ctx, b).ctx)
  {
    hide AddressReads, DecodeAddress, DefaultsFit;
    AddressMeans(ctx.defaults, b[2..], b[0], 0, -1, 8 * SizeOf(b[0]));
  }

  lemma UpdateMeans(ctx: Context, b: Bytes)
    requires DefaultsFit(ctx.defaults) && DecodeUpdate(ctx, b).result.Ok?
    ensures TlvReads(ctx, 8, b, DecodeUpdate(ctx, b).result.value)
  {
    hide SubTlvs, U16At, Sixteen, PrefixReads, DecodePrefix, DefaultsFit, AfterUpdate, HopFor;
    SixteenIsU16(b);
    var ae := ReadAs(b[0]);
    PrefixMeans(ctx.defaults, b[10..], ae, b[2], b[3]);
    var p, v := DecodePrefix(ctx.defaults, b[10..], ae, b[2], b[3]), DecodeUpdate(ctx, b).result.value;
    assert v.Announcement? && v.prefix == p.value.0 && PrefixReads(ctx.defaults, b[10..], ae, b[2], b[3], v.prefix, p.value.1);
  }

  lemma UpdateStateMeans(ctx: Context, b: Bytes)
    requires DefaultsFit(ctx.defaults) && DecodeUpdate(ctx, b).result.Ok?
    ensures StateReads(ctx, 8, b, DecodeUpdate(ctx, b).result.value, DecodeUpdate(ctx, b).ctx)
  {
    hide SubTlvs, DecodePrefix, DefaultsFit, IdIn, RouterIdFromAddr, SetsDefault, SetsRouterId, U16At, DecodeInterval;
    FlagsMean(b[1]);
    IdOfAddress(DecodeUpdate(ctx, b).result.value.prefix.addr);
  }

  lemma RouteRequestMeans(ctx: Context, b: Bytes)
    requires DefaultsFit(ctx.defaults) && DecodeRouteRequest(ctx, b).result.Ok?
    ensures TlvReads(ctx, 9, b, DecodeRouteRequest(ctx, b).result.value)
  {
    hide SubTlvs, PrefixReads, DecodePrefix, DefaultsFit;
    PrefixMeans(ctx.defaults, b[2..], b[0], b[1], 0);
  }

  lemma SeqnoRequestMeans(ctx: Context, b: Bytes)
    requires DefaultsFit(ctx.defaults) && DecodeSeqnoRequest(ctx, b).result.Ok?
    ensures TlvReads(ctx, 10, b, DecodeSeqnoRequest(ctx, b).result.value)
  {
    hide SubTlvs, U16At, Sixteen, PrefixReads, DecodePrefix, DefaultsFit, ValidId, Identifies;
    SixteenIsU16(b);
    PrefixMeans(ctx.defaults, b[14..], b[0], b[1], 0);
    ValidIdentifies(b[6..14]);
  }

  /** Every payload that is accepted says this, and leaves this in the state; numbers above 10 are not known. */
  lemma PayloadMeans(ctx: Context, t: Byte, b: Bytes)
    requires DefaultsFit(ctx.defaults)
    ensures var d := Payload(ctx, t, b);
            && (d.result.Ok? ==> t <= 10 && TlvReads(ctx, t, b, d.result.value) && StateReads(ctx, t, b, d.result.value, d.ctx))
            && (d.result.Err? ==> d.ctx == ctx) && (t > 10 ==> d.result == Err(UnsupportedValue))
  {
    hide DecodeHello, DecodeIhu, DecodeRouterId, DecodeNextHop, DecodeUpdate, DecodeRouteRequest, DecodeSeqnoRequest;
    ErrorsKeepState(ctx, b);
    KindsDecoded(ctx, b);
    var d := Payload(ctx, t, b);
    if d.result.Ok? {
      if t == 4 {
        HelloMeans(ctx, b);
      } else if t == 5 {
        IhuMeans(ctx, b);
      } else if t == 6 {
        RouterIdMeans(ctx, b);
      } else if t == 7 {
        NextHopMeans(ctx, b);
      } else if t == 8 {
        UpdateMeans(ctx, b);
        UpdateStateMeans(ctx, b);
      } else if t == 9 {
        RouteRequestMeans(ctx, b);
      } else if t == 10 {
        SeqnoRequestMeans(ctx, b);
      }
    }
  }

  lemma RouterIdMeans(ctx: Context, b: Bytes)
    requires DecodeRouterId(ctx, b).result.Ok?
    ensures TlvReads(ctx, 6, b, DecodeRouterId(ctx, b).result.value)
    ensures StateReads(ctx, 6, b, DecodeRouterId(ctx, b).result.value, DecodeRouterId(ctx, b).ctx)
  {
    ValidIdentifies(b[2..10]);
    hide ValidId, Identifies;
  }

  lemma ErrorsKeepState(ctx: Context, b: Bytes)
    requires DefaultsFit(ctx.defaults)
    ensures DecodeHello(ctx, b).ctx == ctx && DecodeIhu(ctx, b).ctx == ctx
    ensures DecodeRouteRequest(ctx, b).ctx == ctx && DecodeSeqnoRequest(ctx, b).ctx == ctx
    ensures DecodeRouterId(ctx, b).result.Err? ==> DecodeRouterId(ctx, b).ctx == ctx
    ensures DecodeNextHop(ctx, b).result.Err? ==> DecodeNextHop(ctx, b).ctx == ctx
    ensures DecodeUpdate(ctx, b).result.Err? ==> DecodeUpdate(ctx, b).ctx == ctx
  {
    hide SubTlvs, DecodePrefix, DecodeAddress, DefaultsFit, AfterUpdate, HopFor, ValidId;
  }

  lemma KindsDecoded(ctx: Context, b: Bytes)
    requires DefaultsFit(ctx.defaults)
    ensures DecodeHello(ctx, b).result.Ok? ==> DecodeHello(ctx, b).result.value.Hello?
    ensures DecodeIhu(ctx, b).result.Ok? ==> DecodeIhu(ctx, b).result.value.Ihu?
    ensures DecodeRouteRequest(ctx, b).result.Ok? ==> DecodeRouteRequest(ctx, b).result.value.RouteRequest?
    ensures DecodeSeqnoRequest(ctx, b).result.Ok? ==> DecodeSeqnoRequest(ctx, b).result.value.SeqnoRequest?
  {
    hide SubTlvs, DecodePrefix, DecodeAddress, DefaultsFit, ValidId;
  }

  // ---- Framing ----

  /** The first TLV of a list is a single zero, or a number, a length and as many octets; in a trailer only 0 and 1 are accepted. */
  lemma FirstMeans(ctx: Context, b: Bytes, trailer: bool)
    requires DefaultsFit(ctx.defaults) && b != [] && First(ctx, b, trailer).result.Ok?
    ensures var d := First(ctx, b, trailer);
            && d.size <= |b| && (b[0] == 0 ==> d.size == 1) && (b[0] != 0 ==> |b| >= 2 && d.size - 2 == b[1])
            && (trailer ==> b[0] <= 1)
            && var p := if b[0] == 0 then [] else b[2..d.size];
               TlvReads(ctx, b[0], p, d.result.value) && StateReads(ctx, b[0], p, d.result.value, d.ctx)
  {
    hide TlvReads, StateReads, Payload, DefaultsFit;
    PayloadMeans(ctx, b[0], if b[0] == 0 then [] else b[2..2 + b[1] as int]);
    assert b[0] == 0 ==> b[1..1] == [];
  }

  /** A packet starts with 42, 2 and the length of its body; what follows the body is the trailer. */
  lemma PacketMeans(ctx: Context, b: Bytes)
    requires DefaultsFit(ctx.defaults)
    ensures var r := DecodePacket(ctx, b).result;
            var framed := |b| >= 4 && b[0] == 42 && b[1] == 2 && 4 + Sixteen(b, 2) <= |b|;
            && (!framed ==> r.Err?)
            && (framed ==>
                  var n := 4 + Sixteen(b, 2);
                  var body := Tlvs(ctx, b[4..n], false);
                  var trailer := Tlvs(body.ctx, b[n..], true);
                  && (r.Ok? <==> body.result.Ok? && trailer.result.Ok?)
                  && (r.Ok? ==> r.value == Packet(body.result.value, trailer.result.value)))
  {
    hide Tlvs, DefaultsFit, U16At, Sixteen;
    SixteenIsU16(b);
  }
}
