/** The Babel wire format: TLVs, octets, addresses and prefixes (sections 4.1 to 4.6 of RFC 8966, RFC 9229). */
module Wire {
  import opened Net
  import opened BabelTypes

  type Bytes = seq<Byte>

  datatype Error =
    | TooShort | TooLong | InvalidMagic | UnsupportedVersion | InvalidAddress | MissingDefaultPrefix
    | InvalidRouterId | UnsupportedValue | UnsupportedButMandatory | InvalidForTrailer

  datatype Result<+T> = Ok(value: T) | Err(error: Error)

  /** Intervals are durations in milliseconds. */
  datatype Tlv =
    | Pad1
    | PadN(n: nat)
    | AckRequest(opq: U16, interval: nat)
    | Ack(opq: U16)
    | Hello(helloFlags: U16, seqno: SeqNo, interval: nat, transmit: Option<U32>)
    | Ihu(rxCost: U16, interval: nat, address: Addr, echo: Option<Echo>)
    | RouterIdValue(rid: RouterId)
    | NextHop(hop: Addr)
    | Announcement(flags: Byte, interval: nat, seqno: SeqNo, metric: Metric, prefix: Prefix,
                   rid: RouterId, hop: Addr, v4ViaV6: bool, quality: Quality, source: Option<Prefix>)
    | RouteRequest(prefix: Prefix, wildcard: bool, source: Option<Prefix>)
    | SeqnoRequest(seqno: SeqNo, hopCount: Byte, rid: RouterId, prefix: Prefix, source: Option<Prefix>)

  datatype Echo = Echo(origin: U32, receive: U32)

  /** Path metrics and path quality of an update; -1 is unknown. */
  datatype Quality = Quality(bottleneck: int, rtt: int, jitter: int, age: int, confidence: U16,
                             metricsPresent: bool, qualityPresent: bool)

  const NO_QUALITY := Quality(0, -1, -1, -1, 0, false, false)

  datatype Packet = Packet(body: seq<Tlv>, trailer: seq<Tlv>)

  const MAGIC: Byte := 42
  const VERSION: Byte := 2

  const AE_WILDCARD: Byte := 0
  const AE_IPV4: Byte := 1
  const AE_IPV6: Byte := 2
  const AE_LINK_LOCAL: Byte := 3
  const AE_V4_VIA_V6: Byte := 4

  const SUB_TIMESTAMP: Byte := 3
  const SUB_PATH_METRICS: Byte := 4
  const SUB_PATH_QUALITY: Byte := 5
  const SUB_SOURCE_PREFIX: Byte := 128

  datatype Family = AnyFamily | IPv4 | IPv6

  /** The parser state of section 4.5 of RFC 8966. */
  datatype Context = Context(defaults: map<Byte, Addr>, hops: map<Family, Addr>, rid: RouterId)

  const FRESH := Context(map[], map[], UNSPECIFIED_ID)

  // ---- Integers ----

  function U16Bytes(v: U16): Bytes { [v / 256, v % 256] }

  function U32Bytes(v: U32): Bytes { U16Bytes(v / 0x1_0000) + U16Bytes(v % 0x1_0000) }

  function U16At(b: Bytes, i: nat): U16
    requires i + 2 <= |b|
  {
    var high: int := b[i];
    256 * high + b[i + 1]
  }

  function U32At(b: Bytes, i: nat): U32
    requires i + 4 <= |b|
  {
    var high: int := U16At(b, i);
    0x1_0000 * high + U16At(b, i + 2)
  }

  /** Writing and reading agree wherever the octets stand. */
  lemma U16ReadsBack(b: Bytes, i: nat, v: U16)
    requires i + 2 <= |b| && b[i..i + 2] == U16Bytes(v)
    ensures U16At(b, i) == v
  {
    assert b[i] == b[i..i + 2][0] && b[i + 1] == b[i..i + 2][1];
  }

  lemma U32ReadsBack(b: Bytes, i: nat, v: U32)
    requires i + 4 <= |b| && b[i..i + 4] == U32Bytes(v)
    ensures U32At(b, i) == v
  {
    assert b[i..i + 2] == b[i..i + 4][..2] == U16Bytes(v / 0x1_0000);
    assert b[i + 2..i + 4] == b[i..i + 4][2..] == U16Bytes(v % 0x1_0000);
    U16ReadsBack(b, i, v / 0x1_0000);
    U16ReadsBack(b, i + 2, v % 0x1_0000);
  }

  /** int8(v) of an octet, and of a prefix length of -1. */
  function Int8(v: int): (r: int)
    ensures -128 <= r < 128
  {
    if v % 256 < 128 then v % 256 else v % 256 - 256
  }

  function Ceil8(bits: nat): nat { (bits + 7) / 8 }

  function Zeros(n: nat): (r: Bytes)
    ensures |r| == n && forall i | 0 <= i < n :: r[i] == 0
  {
    seq(n, _ => 0)
  }

  // ---- Intervals ----

  /** time.Duration(i*10) * time.Millisecond, the product taken modulo 2^16. */
  function DecodeInterval(centis: U16): nat { (centis * 10) % 0x1_0000 }

  /** uint16(100 * seconds). */
  function EncodeInterval(millis: nat): U16 { (millis / 10) % 0x1_0000 }

  /** A whole number of seconds that fits the field survives exactly up to 65. */
  lemma IntervalRoundTrip(seconds: nat)
    requires seconds <= 655
    ensures DecodeInterval(EncodeInterval(1000 * seconds)) == 1000 * seconds <==> seconds <= 65
  {
    assert EncodeInterval(1000 * seconds) == 100 * seconds;
  }

  // ---- Addresses ----

  /** addressEncoding; the zero address is refused by a panic. */
  function EncodingOf(a: Addr): Byte
    requires !a.NoAddr?
  {
    if a.IsUnspecified() then AE_WILDCARD
    else if a.Is4In6() then AE_IPV4
    else if a.IsLinkLocal6() then AE_LINK_LOCAL
    else if a.V4? then AE_IPV4 else AE_IPV6
  }

  function Octets(ae: Byte): nat { if ae == AE_IPV6 then 16 else 4 }

  /** How many leading bits of the address are written: all of them for a negative length. */
  function WrittenBits(ae: Byte, plen: int): nat { if plen < 0 then 8 * Octets(ae) else plen }

  /** appendAddress, with the length as an int8. */
  function AddressBytes(a: Addr, plen: int): Bytes
    requires !a.NoAddr? && a.Valid() && -128 <= plen < 128 && plen <= a.BitLen()
  {
    var ae := EncodingOf(a);
    if ae == AE_WILDCARD then []
    else if ae == AE_LINK_LOCAL then a.Slice()[8..]
    else a.Slice()[..Ceil8(WrittenBits(ae, plen))]
  }

  const LINK_LOCAL_HALF: Bytes := [0xfe, 0x80, 0, 0, 0, 0, 0, 0]
  const MAPPED: Bytes := [0, 0, 0, 0, 0, 0, 0, 0, 0, 0, 255, 255]

  /** Every stored default prefix has the octets its encoding may ask for. */
  predicate DefaultsFit(defaults: map<Byte, Addr>) {
    forall ae | ae in defaults :: defaults[ae].Valid() && !defaults[ae].NoAddr? && (ae == AE_IPV6 ==> defaults[ae].V6?)
  }

  /** Clear the bits beyond the length in the octet the length ends in. */
  function MaskLast(o: Bytes, bits: nat): (r: Bytes)
    requires bits <= 8 * |o|
    ensures |r| == |o|
  {
    if bits % 8 == 0 then o else o[bits / 8 := KeepHigh(o[bits / 8], bits % 8)]
  }

  /** The address buffer: omitted octets of the default prefix, then the octets of the message, then zeros. */
  function Assembled(defaults: map<Byte, Addr>, b: Bytes, ae: Byte, omitted: nat, bits: nat): (r: Bytes)
    requires DefaultsFit(defaults) && ae in {AE_IPV4, AE_IPV6, AE_V4_VIA_V6}
    requires omitted > 0 ==> ae in defaults
    requires bits <= 8 * Octets(ae) && omitted <= Ceil8(bits) && Ceil8(bits) - omitted <= |b|
    ensures |r| == Octets(ae)
  {
    var head := if omitted > 0 then defaults[ae].Slice()[..omitted] else [];
    MaskLast(head + b[..Ceil8(bits) - omitted] + Zeros(Octets(ae) - Ceil8(bits)), bits)
  }

  /** Parser.address: the address and the number of octets it took. */
  function DecodeAddress(defaults: map<Byte, Addr>, b: Bytes, ae: Byte, omitted: Byte, plen: int): (r: Result<(Addr, nat)>)
    requires DefaultsFit(defaults) && -128 <= plen < 128
    ensures r.Ok? ==> r.value.0.Valid() && !r.value.0.NoAddr? && r.value.1 <= |b|
    ensures r.Ok? && ae == AE_IPV4 ==> r.value.0.V4?
    ensures r.Ok? && ae != AE_IPV4 ==> r.value.0.V6?
  {
    if ae == AE_WILDCARD then Ok((V6(Zeros(16)), 0))
    else if ae in {AE_IPV4, AE_IPV6, AE_V4_VIA_V6} then
      var bits := WrittenBits(ae, plen);
      if bits > 8 * Octets(ae) || omitted > Octets(ae) || omitted > Ceil8(bits) then Err(InvalidAddress)
      else if |b| < Ceil8(bits) - omitted then Err(TooShort)
      else if omitted > 0 && ae !in defaults then Err(MissingDefaultPrefix)
      else
        var o := Assembled(defaults, b, ae, omitted, bits);
        Ok((if ae == AE_IPV4 then V4(o) else if ae == AE_IPV6 then V6(o) else V6(MAPPED + o), Ceil8(bits) - omitted))
    else if ae == AE_LINK_LOCAL then
      if omitted != 0 then Err(InvalidAddress)
      else if |b| < 8 then Err(TooShort)
      else Ok((V6(LINK_LOCAL_HALF + b[..8]), 8))
    else Err(InvalidAddress)
  }

  // ---- Prefixes ----

  /** What a netip.Prefix with an address can be. */
  predicate Proper(p: Prefix) { p.addr.Valid() && !p.addr.NoAddr? && -1 <= p.bits <= p.addr.BitLen() }

  function PrefixBytes(p: Prefix): Bytes
    requires Proper(p)
  {
    AddressBytes(p.addr, Int8(p.bits))
  }

  function PrefixLen(p: Prefix): Byte
    requires Proper(p)
  {
    p.bits % 256
  }

  function DecodePrefix(defaults: map<Byte, Addr>, b: Bytes, ae: Byte, plen: Byte, omitted: Byte): (r: Result<(Prefix, nat)>)
    requires DefaultsFit(defaults)
    ensures r.Ok? ==> Proper(r.value.0) && r.value.1 <= |b|
    ensures r.Ok? && ae == AE_IPV4 ==> r.value.0.addr.V4?
    ensures r.Ok? && ae != AE_IPV4 ==> r.value.0.addr.V6?
  {
    var a := DecodeAddress(defaults, b, ae, omitted, Int8(plen));
    if a.Err? then Err(a.error) else Ok((PrefixFrom(a.value.0, plen), a.value.1))
  }

  function FamilyOf(ae: Byte): Family {
    if ae == AE_IPV4 then IPv4 else if ae in {AE_IPV6, AE_LINK_LOCAL, AE_V4_VIA_V6} then IPv6 else AnyFamily
  }

  /** The family a NextHop TLV sets; unlike FamilyOf it counts v4-via-v6 as IPv4. */
  function HopFamily(ae: Byte): Family { if ae in {AE_IPV4, AE_V4_VIA_V6} then IPv4 else IPv6 }

  function RouterIdFromAddr(a: Addr): (r: RouterId)
    requires a.Valid()
    ensures |r| == 8
  {
    match a
    case NoAddr => UNSPECIFIED_ID
    case V4(o) => Zeros(4) + o
    case V6(o) => if a.Is4In6() then Zeros(4) + o[12..] else o[8..]
  }

  predicate ValidId(rid: RouterId) { |rid| == 8 && rid != UNSPECIFIED_ID && rid != ALL_ONES_ID }

  // ---- Path extensions ----

  const UNSET: U32 := 0xffff_ffff

  function EncodeBottleneck(mbps: int): U32 { if mbps <= 0 then UNSET else mbps % 0x1_0000_0000 }

  function DecodeBottleneck(v: U32): int { if v == UNSET then 0 else v }

  /** encodePathRTT and encodePathQualityMetric. */
  function EncodeMetric32(v: int): U32 { if v < 0 then UNSET else if v >= UNSET then UNSET - 1 else v }

  function DecodeMetric32(v: U32): int { if v == UNSET then -1 else v }

  predicate SendsMetrics(q: Quality) { q.bottleneck != 0 || q.rtt > 0 }

  predicate SendsQuality(q: Quality) { q.jitter > 0 || q.age > 0 || q.confidence != 0 }

  function MetricsBytes(q: Quality): Bytes { U32Bytes(EncodeBottleneck(q.bottleneck)) + U32Bytes(EncodeMetric32(q.rtt)) }

  function QualityBytes(q: Quality): Bytes {
    U32Bytes(EncodeMetric32(q.jitter)) + U32Bytes(EncodeMetric32(q.age)) + U16Bytes(q.confidence) + U16Bytes(0)
  }
}
