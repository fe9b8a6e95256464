/** Encoding of packets, and the lengths announced for their buffers. */
module Encoder {
  import opened Net
  import opened BabelTypes
  import opened Wire
  import opened Decoder

  /** What can be encoded without a panic. */
  predicate Encodable(v: Tlv) {
    match v
    case Ihu(_, _, a, _) => a.Valid() && !a.NoAddr?
    case NextHop(a) => a.Valid() && !a.NoAddr?
    case RouterIdValue(rid) => ValidId(rid)
    case Announcement(_, _, _, _, p, _, _, _, _, source) => Proper(p) && (source.Some? ==> Proper(source.value))
    case RouteRequest(p, _, source) => Proper(p) && (source.Some? ==> Proper(source.value))
    case SeqnoRequest(_, _, rid, p, source) => ValidId(rid) && Proper(p) && (source.Some? ==> Proper(source.value))
    case _ => true
  }

  type Sendable = v: Tlv | Encodable(v) witness Pad1

  function SourceBytes(source: Option<Prefix>): Bytes
    requires source.Some? ==> Proper(source.value)
  {
    if source.None? then [] else SubBytes(SUB_SOURCE_PREFIX, [PrefixLen(source.value)] + PrefixBytes(source.value))
  }

  function QualitySubs(q: Quality): Bytes {
    (if SendsMetrics(q) then SubBytes(SUB_PATH_METRICS, MetricsBytes(q)) else [])
    + (if SendsQuality(q) then SubBytes(SUB_PATH_QUALITY, QualityBytes(q)) else [])
  }

  function UpdateAe(p: Prefix, v4ViaV6: bool): Byte
    requires !p.addr.NoAddr?
  {
    if v4ViaV6 then AE_V4_VIA_V6 else EncodingOf(p.addr)
  }

  function TypeOf(v: Tlv): Byte {
    match v
    case Pad1 => 0
    case PadN(_) => 1
    case AckRequest(_, _) => 2
    case Ack(_) => 3
    case Hello(_, _, _, _) => 4
    case Ihu(_, _, _, _) => 5
    case RouterIdValue(_) => 6
    case NextHop(_) => 7
    case Announcement(_, _, _, _, _, _, _, _, _, _) => 8
    case RouteRequest(_, _, _) => 9
    case SeqnoRequest(_, _, _, _, _) => 10
  }

  function PayloadBytes(v: Sendable): Bytes
  {
    match v
    case Pad1 => []
    case PadN(n) => Zeros(n)
    case AckRequest(opq, interval) => U16Bytes(0) + U16Bytes(opq) + U16Bytes(EncodeInterval(interval))
    case Ack(opq) => U16Bytes(opq)
    case Hello(flags, seqno, interval, transmit) =>
      U16Bytes(flags) + U16Bytes(seqno) + U16Bytes(EncodeInterval(interval))
      + (if transmit.None? then [] else SubBytes(SUB_TIMESTAMP, U32Bytes(transmit.value)))
    case Ihu(rxCost, interval, a, echo) =>
      [EncodingOf(a), 0] + U16Bytes(rxCost) + U16Bytes(EncodeInterval(interval)) + AddressBytes(a, -1)
      + (if echo.None? then [] else SubBytes(SUB_TIMESTAMP, U32Bytes(echo.value.origin) + U32Bytes(echo.value.receive)))
    case RouterIdValue(rid) => U16Bytes(0) + IdBytes(rid)
    case NextHop(a) => [EncodingOf(a), 0] + AddressBytes(a, -1)
    case Announcement(flags, interval, seqno, metric, p, _, _, v4ViaV6, quality, source) =>
      [UpdateAe(p, v4ViaV6), flags, PrefixLen(p), 0] + U16Bytes(EncodeInterval(interval)) + U16Bytes(seqno) + U16Bytes(metric)
      + PrefixBytes(p) + (SourceBytes(source) + QualitySubs(quality))
    case RouteRequest(p, _, source) => [EncodingOf(p.addr), PrefixLen(p)] + PrefixBytes(p) + SourceBytes(source)
    case SeqnoRequest(seqno, hopCount, rid, p, source) =>
      [EncodingOf(p.addr), PrefixLen(p)] + U16Bytes(seqno) + [hopCount, 0] + IdBytes(rid) + PrefixBytes(p) + SourceBytes(source)
  }

  function IdBytes(rid: RouterId): Bytes { rid }

  /** AppendValue: the length octet is the payload length modulo 256. */
  function TlvBytes(v: Sendable): Bytes
  {
    if v.Pad1? then [0] else SubBytes(TypeOf(v), PayloadBytes(v))
  }

  function TlvsBytes(vs: seq<Sendable>): Bytes
  {
    if vs == [] then [] else TlvsBytes(vs[..|vs| - 1]) + TlvBytes(vs[|vs| - 1])
  }

  /** The state of the sending parser, which tracks default prefixes and router-ids but not next hops. */
  function AfterSending(ctx: Context, v: Sendable): Context
  {
    if v.Announcement? then AfterUpdate(ctx, UpdateAe(v.prefix, v.v4ViaV6), v.flags, v.prefix.addr) else ctx
  }

  function AfterSendingAll(ctx: Context, vs: seq<Sendable>): Context
  {
    if vs == [] then ctx else AfterSending(AfterSendingAll(ctx, vs[..|vs| - 1]), vs[|vs| - 1])
  }

  function PacketBytes(body: seq<Sendable>, trailer: seq<Sendable>): Bytes
  {
    var written := TlvsBytes(body);
    [MAGIC, VERSION] + U16Bytes(|written| % 0x1_0000) + written + TlvsBytes(trailer)
  }

  // ---- Announced lengths ----

  function AddressLength(a: Addr): nat
    requires !a.NoAddr?
  {
    var ae := EncodingOf(a);
    if ae == AE_WILDCARD then 0 else if ae == AE_IPV4 then 4 else if ae == AE_IPV6 then 16 else 8
  }

  /** prefixLength: octets for the length, a fraction of an octet counting as one. For -1 the quotient is 0 and
      the remainder -1. */
  function PrefixLength(p: Prefix): nat
    requires Proper(p)
  {
    if p.bits < 0 then 1 else Ceil8(p.bits)
  }

  function SourceLength(source: Option<Prefix>): nat
    requires source.Some? ==> Proper(source.value)
  {
    if source.None? then 0 else 3 + PrefixLength(source.value)
  }

  /** ValueLength */
  function TlvLength(v: Sendable): nat
  {
    match v
    case Pad1 => 1
    case PadN(n) => 2 + n
    case AckRequest(_, _) => 8
    case Ack(_) => 4
    case Hello(_, _, _, transmit) => 8 + if transmit.None? then 0 else 6
    case Ihu(_, _, a, echo) => 8 + AddressLength(a) + if echo.None? then 0 else 10
    case RouterIdValue(_) => 12
    case NextHop(a) => 4 + AddressLength(a)
    case Announcement(_, _, _, _, p, _, _, _, q, source) =>
      12 + PrefixLength(p) + SourceLength(source)
      + (if SendsMetrics(q) then 10 else 0) + (if SendsQuality(q) then 14 else 0)
    case RouteRequest(p, _, source) => 4 + PrefixLength(p) + SourceLength(source)
    case SeqnoRequest(_, _, _, p, source) => 16 + PrefixLength(p) + SourceLength(source)
  }

  /** ValuesLength, a uint16. */
  function TlvsLength(vs: seq<Sendable>): U16
  {
    if vs == [] then 0 else (TlvsLength(vs[..|vs| - 1]) + TlvLength(vs[|vs| - 1]) % 0x1_0000) % 0x1_0000
  }

  /** PacketLength, a uint16. */
  function PacketLength(body: seq<Sendable>, trailer: seq<Sendable>): U16
  {
    (4 + TlvsLength(body) + TlvsLength(trailer)) % 0x1_0000
  }

  // ---- Where the announced length is the written one ----

  /** The announced and the written size of a prefix agree. */
  predicate Sized(p: Prefix)
    requires Proper(p)
  {
    |PrefixBytes(p)| == PrefixLength(p)
  }

  lemma AddressIsSized(a: Addr)
    requires a.Valid() && !a.NoAddr?
    ensures |AddressBytes(a, -1)| == AddressLength(a)
  {
  }

  /** Exactly the prefixes whose octets are counted right: for an unspecified address only length 0, for a
      link-local one only lengths that need 8 octets, and otherwise every length that is one. A full-length
      4-in-6 prefix writes 4 octets and announces 16. */
  lemma SizedIff(p: Prefix)
    requires Proper(p)
    ensures Sized(p) <==>
            var ae := EncodingOf(p.addr);
            if ae == AE_WILDCARD then p.bits == 0
            else if ae == AE_LINK_LOCAL then 57 <= p.bits <= 64
            else 0 <= p.bits && !(p.addr.Is4In6() && p.bits == 128)
  {
    var ae := EncodingOf(p.addr);
    WrittenSize(p);
    hide PrefixBytes;
    if ae == AE_IPV4 || ae == AE_IPV6 {
      assert p.bits == 128 ==> Int8(p.bits) == -128;
    }
  }

  lemma WrittenSize(p: Prefix)
    requires Proper(p)
    ensures |PrefixBytes(p)| == var ae := EncodingOf(p.addr);
              if ae == AE_WILDCARD then 0 else if ae == AE_LINK_LOCAL then 8
              else if Ceil8(WrittenBits(ae, Int8(p.bits))) <= 16 then Ceil8(WrittenBits(ae, Int8(p.bits))) else 16
  {
  }

  predicate SizedSource(source: Option<Prefix>)
    requires source.Some? ==> Proper(source.value)
  {
    source.Some? ==> Sized(source.value)
  }

  /** Every prefix in the TLV is counted right. */
  predicate SizedTlv(v: Sendable)
  {
    match v
    case Announcement(_, _, _, _, p, _, _, _, _, source) => Sized(p) && SizedSource(source)
    case RouteRequest(p, _, source) => Sized(p) && SizedSource(source)
    case SeqnoRequest(_, _, _, p, source) => Sized(p) && SizedSource(source)
    case _ => true
  }

  lemma SourceIsSized(source: Option<Prefix>)
    requires (source.Some? ==> Proper(source.value)) && SizedSource(source)
    ensures |SourceBytes(source)| == SourceLength(source)
  {
  }

  lemma TlvIsSized(v: Sendable)
    requires SizedTlv(v)
    ensures |TlvBytes(v)| == TlvLength(v)
  {
    match v
    case Ihu(_, _, a, _) => AddressIsSized(a);
    case NextHop(a) => AddressIsSized(a);
    case Announcement(_, _, _, _, _, _, _, _, _, source) => SourceIsSized(source);
    case RouteRequest(_, _, source) => SourceIsSized(source);
    case SeqnoRequest(_, _, _, _, source) => SourceIsSized(source);
    case _ =>
  }

  predicate AllSized(vs: seq<Sendable>)
  {
    forall v | v in vs :: SizedTlv(v)
  }

  lemma AddModulo(a: nat, b: nat, x: nat, y: nat)
    requires a == x % 0x1_0000 && b == y
    ensures (a + b % 0x1_0000) % 0x1_0000 == (x + y) % 0x1_0000
  {
  }

  lemma {:induction false} TlvsAreSized(vs: seq<Sendable>)
    requires AllSized(vs)
    ensures TlvsLength(vs) == |TlvsBytes(vs)| % 0x1_0000
  {
    hide TlvLength, TlvBytes, SizedTlv;
    if vs != [] {
      var front, v := vs[..|vs| - 1], vs[|vs| - 1];
      assert AllSized(front);
      TlvsAreSized(front);
      TlvIsSized(v);
      AddModulo(TlvsLength(front), TlvLength(v), |TlvsBytes(front)|, |TlvBytes(v)|);
      assert |TlvsBytes(vs)| == |TlvsBytes(front)| + |TlvBytes(v)|;
    }
  }

  /** The octets written are the octets announced, as 16-bit numbers. */
  lemma PacketLengthIsExact(body: seq<Sendable>, trailer: seq<Sendable>)
    requires AllSized(body) && AllSized(trailer)
    ensures PacketLength(body, trailer) == |PacketBytes(body, trailer)| % 0x1_0000
  {
    hide TlvsLength, TlvsBytes, PacketBytes, AllSized;
    TlvsAreSized(body);
    TlvsAreSized(trailer);
    PacketSize(body, trailer, TlvsBytes(body), TlvsBytes(trailer));
    AddModuloThrice(|TlvsBytes(body)|, |TlvsBytes(trailer)|);
  }

  lemma AddModuloThrice(x: nat, y: nat)
    ensures (4 + x % 0x1_0000 + y % 0x1_0000) % 0x1_0000 == (4 + x + y) % 0x1_0000
  {
  }

  lemma PacketSize(body: seq<Sendable>, trailer: seq<Sendable>, bs: Bytes, ts: Bytes)
    requires bs == TlvsBytes(body) && ts == TlvsBytes(trailer)
    ensures |PacketBytes(body, trailer)| == 4 + |bs| + |ts|
  {
  }
}
