/** Which octets stand for what on the wire, in numbers: the layout of every TLV and of packets (sections 4.2 to 4.6 of
    RFC 8966), as it is written. */
module Layout {
  import opened Net
  import opened BabelTypes
  import opened Wire
  import opened Decoder
  import opened Encoder

  // ---- Integers and addresses ----

  /** High octet first. */
  function Two(n: U16): Bytes { [n / 256, n % 256] }

  function Four(n: U32): Bytes { Two(n / 65536) + Two(n % 65536) }

  /** Hundredths of a second. */
  function Centis(millis: nat): U16 { millis / 10 % 65536 }

  predicate AllZero(o: Bytes) { forall i | 0 <= i < |o| :: o[i] == 0 }

  /** 0 for the unspecified addresses, 1 for IPv4, also mapped into IPv6, 3 for fe80::/10 and 2 for other IPv6 addresses. */
  function AddressNumber(a: Addr): Byte
    requires a.Valid() && !a.NoAddr?
  {
    if AllZero(a.octets) then 0
    else if a.V4? then 1
    else if AllZero(a.octets[..10]) && a.octets[10] == 255 && a.octets[11] == 255 then 1
    else if a.octets[0] == 254 && 128 <= a.octets[1] < 192 then 3 else 2
  }

  /** Nothing of an unspecified address, the last eight octets of a link-local one, and of others the octets that the length
      touches, all for no length: four for number 1 and sixteen for number 2. */
  function AddressOctets(a: Addr, bits: int): Bytes
    requires a.Valid() && !a.NoAddr? && -1 <= bits <= a.BitLen()
  {
    if AddressNumber(a) == 0 then []
    else if AddressNumber(a) == 3 then a.octets[8..]
    else a.octets[..if 0 <= bits < 128 then (bits + 7) / 8 else if AddressNumber(a) == 1 then 4 else 16]
  }

  /** A length octet, 255 for none. */
  function LengthOctet(bits: int): Byte
    requires -1 <= bits <= 128
  {
    if bits < 0 then 255 else bits
  }

  // ---- Sub-TLVs ----

  function SourceTlv(source: Option<Prefix>): Bytes
    requires source.Some? ==> Proper(source.value)
  {
    if source.None? then []
    else
      var o := AddressOctets(source.value.addr, source.value.bits);
      [128, 1 + |o|, LengthOctet(source.value.bits)] + o
  }

  /** Unknown is written as all ones, and what does not fit as the greatest known value. */
  function Unsigned(v: int): U32 { if v < 0 then 4294967295 else if v > 4294967294 then 4294967294 else v }

  function QualityTlvs(q: Quality): Bytes {
    (if q.bottleneck != 0 || q.rtt > 0 then
       [4, 8] + Four(if q.bottleneck <= 0 then 4294967295 else q.bottleneck % 4294967296) + Four(Unsigned(q.rtt))
     else [])
    + (if q.jitter > 0 || q.age > 0 || q.confidence != 0 then
         [5, 12] + Four(Unsigned(q.jitter)) + Four(Unsigned(q.age)) + Two(q.confidence) + [0, 0]
       else [])
  }

  // ---- TLVs ----

  /** The payload of each TLV. */
  function Body(v: Sendable): Bytes {
    match v
    case Pad1 => []
    case PadN(n) => seq(n, _ => 0)
    case AckRequest(opq, interval) => [0, 0] + Two(opq) + Two(Centis(interval))
    case Ack(opq) => Two(opq)
    case Hello(flags, seqno, interval, transmit) =>
      Two(flags) + Two(seqno) + Two(Centis(interval)) + (if transmit.None? then [] else [3, 4] + Four(transmit.value))
    case Ihu(rxCost, interval, a, echo) =>
      [AddressNumber(a), 0] + Two(rxCost) + Two(Centis(interval)) + AddressOctets(a, -1)
      + (if echo.None? then [] else [3, 8] + Four(echo.value.origin) + Four(echo.value.receive))
    case RouterIdValue(rid) => [0, 0] + rid
    case NextHop(a) => [AddressNumber(a), 0] + AddressOctets(a, -1)
    case Announcement(flags, interval, seqno, metric, p, _, _, v4ViaV6, quality, source) =>
      [if v4ViaV6 then 4 else AddressNumber(p.addr), flags, LengthOctet(p.bits), 0]
      + Two(Centis(interval)) + Two(seqno) + Two(metric) + AddressOctets(p.addr, p.bits)
       + (SourceTlv(source) + QualityTlvs(quality))
    case RouteRequest(p, _, source) =>
      [AddressNumber(p.addr), LengthOctet(p.bits)] + AddressOctets(p.addr, p.bits) + SourceTlv(source)
    case SeqnoRequest(seqno, hopCount, rid, p, source) =>
      [AddressNumber(p.addr), LengthOctet(p.bits)] + Two(seqno) + [hopCount, 0] + rid + AddressOctets(p.addr, p.bits)
      + SourceTlv(source)
  }

  function Number(v: Tlv): Byte {
    match v
    case Pad1 => 0
    case PadN(_) => 1
    case AckRequest(_, _) => 2
    case Ack(_) => 3
    case Hello(_, _, _, _) => 4
    case Ihu(_, _, _, _) => 5
    case RouterIdValue(_) => 6
    case NextHop(_) => 7
    case Announcement(_, _, _, _, _, _, _, _, _, _) => 8
    case RouteRequest(_, _, _) => 9
    case SeqnoRequest(_, _, _, _, _) => 10
  }

  /** A Pad1 is a single zero; all others have their number and the length of the payload in front. */
  function Octets(v: Sendable): Bytes { if v.Pad1? then [0] else [Number(v), |Body(v)| % 256] + Body(v) }

  lemma AddressIsLaidOut(a: Addr, bits: int)
    requires a.Valid() && !a.NoAddr? && -1 <= bits <= a.BitLen()
    ensures EncodingOf(a) == AddressNumber(a) && AddressBytes(a, Int8(bits)) == AddressOctets(a, bits)
    ensures bits % 256 == LengthOctet(bits)
  {
    assert a.octets == a.Slice();
    assert a.V6? && a.octets[1] / 64 == 2 <==> a.V6? && 128 <= a.octets[1] < 192;
    assert a.V6? ==> forall i | 0 <= i < 10 :: a.octets[..10][i] == a.octets[i];
  }

  lemma PrefixIsLaidOut(p: Prefix)
    requires Proper(p)
    ensures EncodingOf(p.addr) == AddressNumber(p.addr) && PrefixBytes(p) == AddressOctets(p.addr, p.bits)
    ensures PrefixLen(p) == LengthOctet(p.bits) && |AddressOctets(p.addr, p.bits)| <= 16
  {
    AddressIsLaidOut(p.addr, p.bits);
    hide EncodingOf, AddressBytes, AddressNumber, Int8;
  }

  lemma IntegersAreLaidOut(n: U16, m: U32)
    ensures U16Bytes(n) == Two(n) && U32Bytes(m) == Four(m)
  {
  }

  lemma SourceIsLaidOut(source: Option<Prefix>)
    requires source.Some? ==> Proper(source.value)
    ensures SourceBytes(source) == SourceTlv(source)
  {
    if source.Some? {
      PrefixIsLaidOut(source.value);
      hide PrefixBytes, AddressOctets, PrefixLen, LengthOctet;
    }
  }

  lemma MetricsAreLaidOut(q: Quality)
    ensures SendsMetrics(q) <==> q.bottleneck != 0 || q.rtt > 0
    ensures SubBytes(SUB_PATH_METRICS, MetricsBytes(q)) ==
            [4, 8] + Four(if q.bottleneck <= 0 then 4294967295 else q.bottleneck % 4294967296) + Four(Unsigned(q.rtt))
  {
    IntegersAreLaidOut(0, EncodeBottleneck(q.bottleneck));
    IntegersAreLaidOut(0, EncodeMetric32(q.rtt));
    assert |MetricsBytes(q)| == 8;
    hide U16Bytes, U32Bytes, Two, Four;
  }

  lemma DelaysAreLaidOut(q: Quality)
    ensures SendsQuality(q) <==> q.jitter > 0 || q.age > 0 || q.confidence != 0
    ensures SubBytes(SUB_PATH_QUALITY, QualityBytes(q)) ==
            [5, 12] + Four(Unsigned(q.jitter)) + Four(Unsigned(q.age)) + Two(q.confidence) + [0, 0]
  {
    IntegersAreLaidOut(q.confidence, EncodeMetric32(q.jitter));
    IntegersAreLaidOut(0, EncodeMetric32(q.age));
    ZeroIsLaidOut();
    assert |QualityBytes(q)| == 12;
    hide U16Bytes, U32Bytes, Two, Four;
  }

  lemma QualityIsLaidOut(q: Quality)
    ensures QualitySubs(q) == QualityTlvs(q)
  {
    hide MetricsBytes, QualityBytes, SubBytes, Two, Four, Unsigned, SendsMetrics, SendsQuality;
    MetricsAreLaidOut(q);
    DelaysAreLaidOut(q);
  }

  lemma ZeroIsLaidOut()
    ensures U16Bytes(0) == [0, 0]
  {
  }

  lemma BodyIsLaidOut(v: Sendable)
    ensures PayloadBytes(v) == Body(v)
  {
    ZeroIsLaidOut();
    match v
    case Pad1 =>
    case PadN(n) =>
    case AckRequest(opq, interval) =>
      IntegersAreLaidOut(opq, 0);
      IntegersAreLaidOut(EncodeInterval(interval), 0);
    case Ack(opq) => IntegersAreLaidOut(opq, 0);
    case Hello(flags, seqno, interval, transmit) => HelloIsLaidOut(v);
    case Ihu(rxCost, interval, a, echo) => IhuIsLaidOut(v);
    case RouterIdValue(rid) =>
    case NextHop(a) => AddressIsLaidOut(a, -1);
    case Announcement(flags, interval, seqno, metric, p, _, _, v4ViaV6, quality, source) => UpdateIsLaidOut(v);
    case RouteRequest(p, _, source) =>
      PrefixIsLaidOut(p);
      SourceIsLaidOut(source);
    case SeqnoRequest(seqno, hopCount, rid, p, source) =>
      IntegersAreLaidOut(seqno, 0);
      PrefixIsLaidOut(p);
      SourceIsLaidOut(source);
  }

  lemma HelloIsLaidOut(v: Sendable)
    requires v.Hello?
    ensures PayloadBytes(v) == Body(v)
  {
    IntegersAreLaidOut(v.helloFlags, if v.transmit.Some? then v.transmit.value else 0);
    IntegersAreLaidOut(v.seqno, 0);
    IntegersAreLaidOut(EncodeInterval(v.interval), 0);
    hide U16Bytes, U32Bytes, Two, Four;
    assert v.transmit.Some? ==> |U32Bytes(v.transmit.value)| == 4;
  }

  lemma IhuIsLaidOut(v: Sendable)
    requires v.Ihu?
    ensures PayloadBytes(v) == Body(v)
  {
    IntegersAreLaidOut(v.rxCost, if v.echo.Some? then v.echo.value.origin else 0);
    IntegersAreLaidOut(EncodeInterval(v.interval), if v.echo.Some? then v.echo.value.receive else 0);
    AddressIsLaidOut(v.address, -1);
    hide U16Bytes, U32Bytes, Two, Four, EncodingOf, AddressBytes, AddressNumber, AddressOctets;
    if v.echo.Some? {
      assert |U32Bytes(v.echo.value.origin) + U32Bytes(v.echo.value.receive)| == 8;
      assert [3, 8] + (Four(v.echo.value.origin) + Four(v.echo.value.receive))
          == [3, 8] + Four(v.echo.value.origin) + Four(v.echo.value.receive);
    }
  }

  lemma UpdateIsLaidOut(v: Sendable)
    requires v.Announcement?
    ensures PayloadBytes(v) == Body(v)
  {
    IntegersAreLaidOut(EncodeInterval(v.interval), 0);
    IntegersAreLaidOut(v.seqno, 0);
    IntegersAreLaidOut(v.metric, 0);
    PrefixIsLaidOut(v.prefix);
    SourceIsLaidOut(v.source);
    QualityIsLaidOut(v.quality);
    hide U16Bytes, Two, EncodingOf, PrefixBytes, AddressNumber, AddressOctets, PrefixLen, LengthOctet, SourceBytes, SourceTlv,
         QualitySubs, QualityTlvs;
  }

  /** Every TLV is written like this. */
  lemma TlvIsLaidOut(v: Sendable)
    ensures TlvBytes(v) == Octets(v)
  {
    BodyIsLaidOut(v);
    hide PayloadBytes, Body;
  }

  function AllOctets(vs: seq<Sendable>): Bytes {
    if vs == [] then [] else AllOctets(vs[..|vs| - 1]) + Octets(vs[|vs| - 1])
  }

  lemma {:induction false} TlvsAreLaidOut(vs: seq<Sendable>)
    ensures TlvsBytes(vs) == AllOctets(vs)
  {
    hide TlvBytes, Octets;
    if vs != [] {
      TlvsAreLaidOut(vs[..|vs| - 1]);
      TlvIsLaidOut(vs[|vs| - 1]);
    }
  }

  /** A packet is 42, 2, the length of its body, the TLVs of the body and those of the trailer. */
  lemma PacketIsLaidOut(body: seq<Sendable>, trailer: seq<Sendable>)
    ensures PacketBytes(body, trailer) == [42, 2] + Two(|AllOctets(body)| % 65536) + AllOctets(body) + AllOctets(trailer)
  {
    TlvsAreLaidOut(body);
    TlvsAreLaidOut(trailer);
    IntegersAreLaidOut(|AllOctets(body)| % 65536, 0);
    hide TlvsBytes, AllOctets, U16Bytes, Two;
  }
}
