/** Decoding of packets. The functions say what each payload means; class Parser walks the octets and keeps the
    state that later TLVs depend on, and is proved to follow them. */
module Decoder {
  import opened Net
  import opened BabelTypes
  import opened Wire

  // ---- Sub-TLVs ----

  /** A TLV with what its sub-TLVs have filled in so far, and the error that stopped the walk. */
  datatype Filled = Filled(v: Tlv, error: Option<Error>)

  /** One sub-TLV: the TLV afterwards, an error, and how many octets were left over. */
  datatype SubStep = SubStep(v: Tlv, error: Option<Error>, left: nat)

  function Fail(v: Tlv, e: Error): SubStep { SubStep(v, Some(e), 0) }

  function HelloSub(v: Tlv, t: Byte, b: Bytes): SubStep
    requires v.Hello?
  {
    if t != SUB_TIMESTAMP then Fail(v, UnsupportedValue)
    else if |b| < 4 then Fail(v.(transmit := Some(0)), TooShort)
    else SubStep(v.(transmit := Some(U32At(b, 0))), None, |b| - 4)
  }

  /** A timestamp that is cut short leaves what was read of it. */
  function IhuSub(v: Tlv, t: Byte, b: Bytes): SubStep
    requires v.Ihu?
  {
    if t != SUB_TIMESTAMP then Fail(v, UnsupportedValue)
    else if |b| < 4 then Fail(v.(echo := Some(Echo(0, 0))), TooShort)
    else if |b| < 8 then Fail(v.(echo := Some(Echo(U32At(b, 0), 0))), TooShort)
    else SubStep(v.(echo := Some(Echo(U32At(b, 0), U32At(b, 4)))), None, |b| - 8)
  }

  function SourceSub(v: Tlv, ae: Byte, b: Bytes): SubStep
    requires v.Announcement? || v.RouteRequest? || v.SeqnoRequest?
  {
    if b == [] then Fail(v, TooShort)
    else
      var p := DecodePrefix(map[], b[1..], ae, b[0], 0);
      if p.Err? then Fail(v, p.error)
      else SubStep(v.(source := Some(p.value.0)), None, |b| - 1 - p.value.1)
  }

  function UpdateSub(v: Tlv, ae: Byte, t: Byte, b: Bytes): SubStep
    requires v.Announcement?
  {
    if t == SUB_SOURCE_PREFIX then SourceSub(v, ae, b)
    else if t == SUB_PATH_METRICS then
      if |b| < 8 then Fail(v, TooShort)
      else SubStep(v.(quality := v.quality.(metricsPresent := true, bottleneck := DecodeBottleneck(U32At(b, 0)),
                                            rtt := DecodeMetric32(U32At(b, 4)))), None, |b| - 8)
    else if t == SUB_PATH_QUALITY then
      if |b| < 12 then Fail(v, TooShort)
      else SubStep(v.(quality := v.quality.(qualityPresent := true, jitter := DecodeMetric32(U32At(b, 0)),
                                            age := DecodeMetric32(U32At(b, 4)), confidence := U16At(b, 8))), None, |b| - 12)
    else Fail(v, UnsupportedValue)
  }

  function Sub(v: Tlv, ae: Byte, t: Byte, b: Bytes): (r: SubStep)
    ensures SameKind(v, r.v)
  {
    match v
    case Hello(_, _, _, _) => HelloSub(v, t, b)
    case Ihu(_, _, _, _) => IhuSub(v, t, b)
    case Announcement(_, _, _, _, _, _, _, _, _, _) => UpdateSub(v, ae, t, b)
    case RouteRequest(_, _, _) => if t == SUB_SOURCE_PREFIX then SourceSub(v, ae, b) else Fail(v, UnsupportedValue)
    case SeqnoRequest(_, _, _, _, _) => if t == SUB_SOURCE_PREFIX then SourceSub(v, ae, b) else Fail(v, UnsupportedValue)
    case _ => Fail(v, UnsupportedValue)
  }

  /** Sub-TLVs fill in fields; they change nothing else of a TLV. */
  predicate SameKind(v: Tlv, w: Tlv) {
    match v
    case Hello(_, _, _, _) => w.Hello? && w == v.(transmit := w.transmit)
    case Ihu(_, _, _, _) => w.Ihu? && w == v.(echo := w.echo)
    case Announcement(_, _, _, _, _, _, _, _, _, _) =>
      w.Announcement? && w.(quality := v.quality, source := v.source) == v
    case RouteRequest(p, wildcard, _) => w.RouteRequest? && w == RouteRequest(p, wildcard, w.source)
    case SeqnoRequest(q, hopCount, rid, p, _) => w.SeqnoRequest? && w == SeqnoRequest(q, hopCount, rid, p, w.source)
    case _ => w == v
  }

  /** Type, length and size of the header at the start; a Pad1 is its own header. */
  function Header(b: Bytes): (h: Result<(Byte, Byte, nat)>)
    requires b != []
    ensures h.Ok? ==> 1 <= h.value.2 <= |b| && h.value.2 <= 2
  {
    if b[0] == 0 then Ok((0, 0, 1))
    else if |b| < 2 then Err(TooShort)
    else Ok((b[0], b[1], 2))
  }

  predicate IsMandatory(t: Byte) { t >= 128 }

  /** forEachSubValue */
  function SubTlvs(v: Tlv, ae: Byte, b: Bytes): (r: Filled)
    ensures SameKind(v, r.v)
    decreases |b|
  {
    if b == [] then Filled(v, None)
    else
      var h := Header(b);
      if h.Err? then Filled(v, Some(h.error))
      else
        var (t, l, o) := h.value;
        if |b| - o < l then Filled(v, Some(TooShort))
        else
          var s := Sub(v, ae, t, b[o..o + l]);
          if s.error == Some(UnsupportedValue) then
            if IsMandatory(t) then Filled(v, Some(UnsupportedButMandatory)) else SubTlvs(v, ae, b[o + l..])
          else if s.error.Some? then Filled(s.v, s.error)
          else if s.left > 0 then Filled(s.v, Some(TooLong))
          else SubTlvs(s.v, ae, b[o + l..])
  }

  // ---- Payloads ----

  /** What a payload decodes to, how many octets were left over, and the parser state afterwards. */
  datatype Decoded = Decoded(result: Result<Tlv>, left: nat, ctx: Context)

  function Refused(ctx: Context, e: Error): Decoded { Decoded(Err(e), 0, ctx) }

  function Finished(ctx: Context, f: Filled): Decoded {
    if f.error.Some? then Refused(ctx, f.error.value) else Decoded(Ok(f.v), 0, ctx)
  }

  function DecodeHello(ctx: Context, b: Bytes): Decoded {
    if |b| < 6 then Refused(ctx, TooShort)
    else Finished(ctx, SubTlvs(Hello(U16At(b, 0), U16At(b, 2), DecodeInterval(U16At(b, 4)), None), 0, b[6..]))
  }

  /** Errors in the sub-TLVs of an IHU are swallowed. */
  function DecodeIhu(ctx: Context, b: Bytes): Decoded
    requires DefaultsFit(ctx.defaults)
  {
    if |b| < 6 then Refused(ctx, TooShort)
    else
      var a := DecodeAddress(ctx.defaults, b[6..], b[0], 0, -1);
      if a.Err? then Refused(ctx, a.error)
      else
        var v := Ihu(U16At(b, 2), DecodeInterval(U16At(b, 4)), a.value.0, None);
        Decoded(Ok(SubTlvs(v, 0, b[6 + a.value.1..]).v), 0, ctx)
  }

  function DecodeRouterId(ctx: Context, b: Bytes): Decoded {
    if |b| < 10 then Refused(ctx, TooShort)
    else if !ValidId(b[2..10]) then Refused(ctx, InvalidRouterId)
    else Decoded(Ok(RouterIdValue(b[2..10])), |b| - 10, ctx.(rid := b[2..10]))
  }

  function DecodeNextHop(ctx: Context, b: Bytes): Decoded
    requires DefaultsFit(ctx.defaults)
  {
    if |b| < 2 then Refused(ctx, TooShort)
    else
      var a := DecodeAddress(ctx.defaults, b[2..], b[0], 0, -1);
      if a.Err? then Refused(ctx, a.error)
      else Decoded(Ok(NextHop(a.value.0)), |b| - 2 - a.value.1, ctx.(hops := ctx.hops[HopFamily(b[0]) := a.value.0]))
  }

  /** The prefix flag (0x80) and the router-id flag (0x40). */
  predicate SetsDefault(flags: Byte) { flags / 128 == 1 }

  predicate SetsRouterId(flags: Byte) { flags / 64 % 2 == 1 }

  /** The parser state after an update for this prefix. */
  function AfterUpdate(ctx: Context, ae: Byte, flags: Byte, a: Addr): Context
    requires a.Valid()
  {
    Context(if SetsDefault(flags) then ctx.defaults[ae := a] else ctx.defaults, ctx.hops,
            if SetsRouterId(flags) then RouterIdFromAddr(a) else ctx.rid)
  }

  function HopFor(ctx: Context, ae: Byte): Addr { if FamilyOf(ae) in ctx.hops then ctx.hops[FamilyOf(ae)] else NoAddr }

  function DecodeUpdate(ctx: Context, b: Bytes): Decoded
    requires DefaultsFit(ctx.defaults)
  {
    if |b| < 10 then Refused(ctx, TooShort)
    else
      var ae := b[0];
      var p := DecodePrefix(ctx.defaults, b[10..], if ae == AE_V4_VIA_V6 then AE_IPV4 else ae, b[2], b[3]);
      if p.Err? then Refused(ctx, p.error)
      else
        var v := Announcement(b[1], DecodeInterval(U16At(b, 4)), U16At(b, 6), U16At(b, 8), p.value.0,
                              UNSPECIFIED_ID, NoAddr, ae == AE_V4_VIA_V6, NO_QUALITY, None);
        var f := SubTlvs(v, ae, b[10 + p.value.1..]);
        if f.error.Some? then Refused(ctx, f.error.value)
        else
          var ctx' := AfterUpdate(ctx, ae, b[1], p.value.0.addr);
          Decoded(Ok(f.v.(rid := ctx'.rid, hop := HopFor(ctx', ae))), 0, ctx')
  }

  function DecodeRouteRequest(ctx: Context, b: Bytes): Decoded
    requires DefaultsFit(ctx.defaults)
  {
    if |b| < 2 then Refused(ctx, TooShort)
    else
      var p := DecodePrefix(ctx.defaults, b[2..], b[0], b[1], 0);
      if p.Err? then Refused(ctx, p.error)
      else Finished(ctx, SubTlvs(RouteRequest(p.value.0, b[0] == AE_WILDCARD, None), b[0], b[2 + p.value.1..]))
  }

  function DecodeSeqnoRequest(ctx: Context, b: Bytes): Decoded
    requires DefaultsFit(ctx.defaults)
  {
    if |b| < 14 then Refused(ctx, TooShort)
    else if !ValidId(b[6..14]) then Refused(ctx, InvalidRouterId)
    else
      var p := DecodePrefix(ctx.defaults, b[14..], b[0], b[1], 0);
      if p.Err? then Refused(ctx, p.error)
      else Finished(ctx, SubTlvs(SeqnoRequest(U16At(b, 2), b[4], b[6..14], p.value.0, None), b[0], b[14 + p.value.1..]))
  }

  /** valuePayload */
  function Payload(ctx: Context, t: Byte, b: Bytes): (r: Decoded)
    requires DefaultsFit(ctx.defaults)
    ensures DefaultsFit(r.ctx.defaults)
  {
    if t == 0 then Decoded(Ok(Pad1), |b|, ctx)
    else if t == 1 then Decoded(Ok(PadN(|b|)), 0, ctx)
    else if t == 2 then
      if |b| < 6 then Refused(ctx, TooShort)
      else Decoded(Ok(AckRequest(U16At(b, 2), DecodeInterval(U16At(b, 4)))), |b| - 6, ctx)
    else if t == 3 then
      if |b| < 2 then Refused(ctx, TooShort) else Decoded(Ok(Ack(U16At(b, 0))), |b| - 2, ctx)
    else if t == 4 then DecodeHello(ctx, b)
    else if t == 5 then DecodeIhu(ctx, b)
    else if t == 6 then DecodeRouterId(ctx, b)
    else if t == 7 then DecodeNextHop(ctx, b)
    else if t == 8 then DecodeUpdate(ctx, b)
    else if t == 9 then DecodeRouteRequest(ctx, b)
    else if t == 10 then DecodeSeqnoRequest(ctx, b)
    else Refused(ctx, UnsupportedValue)
  }

  // ---- Packets ----

  datatype Parsed = Parsed(result: Result<seq<Tlv>>, ctx: Context)

  predicate IsTrailerType(t: Byte) { t in {0, 1, 16} }

  /** The TLV at the start: its value or the error that rejects it, the octets it takes, the state afterwards. */
  datatype Taken = Taken(result: Result<Tlv>, size: nat, ctx: Context)

  function First(ctx: Context, b: Bytes, trailer: bool): (r: Taken)
    requires DefaultsFit(ctx.defaults) && b != []
    ensures DefaultsFit(r.ctx.defaults) && (r.result.Ok? ==> 1 <= r.size <= |b|)
  {
    var h := Header(b);
    if h.Err? then Taken(Err(h.error), 0, ctx)
    else
      var (t, l, o) := h.value;
      if |b| - o < l then Taken(Err(TooShort), 0, ctx)
      else if trailer && !IsTrailerType(t) then Taken(Err(InvalidForTrailer), 0, ctx)
      else
        var d := Payload(ctx, t, b[o..o + l]);
        if d.result.Ok? && d.left > 0 then Taken(Err(TooLong), 0, d.ctx) else Taken(d.result, o + l, d.ctx)
  }

  /** Parser.Values: every TLV in turn, or the first error. */
  function Tlvs(ctx: Context, b: Bytes, trailer: bool): (r: Parsed)
    requires DefaultsFit(ctx.defaults)
    ensures DefaultsFit(r.ctx.defaults)
    decreases |b|
  {
    if b == [] then Parsed(Ok([]), ctx)
    else
      var d := First(ctx, b, trailer);
      if d.result.Err? then Parsed(Err(d.result.error), d.ctx)
      else
        var rest := Tlvs(d.ctx, b[d.size..], trailer);
        Parsed(if rest.result.Err? then rest.result else Ok([d.result.value] + rest.result.value), rest.ctx)
  }

  datatype Received = Received(result: Result<Packet>, ctx: Context)

  /** Parser.Packet */
  function DecodePacket(ctx: Context, b: Bytes): (r: Received)
    requires DefaultsFit(ctx.defaults)
    ensures DefaultsFit(r.ctx.defaults)
  {
    if |b| < 1 then Received(Err(TooShort), ctx)
    else if b[0] != MAGIC then Received(Err(InvalidMagic), ctx)
    else if |b| < 2 then Received(Err(TooShort), ctx)
    else if b[1] != VERSION then Received(Err(UnsupportedVersion), ctx)
    else if |b| < 4 || |b| - 4 < U16At(b, 2) then Received(Err(TooShort), ctx)
    else
      var n := 4 + U16At(b, 2);
      var body := Tlvs(ctx, b[4..n], false);
      if body.result.Err? then Received(Err(body.result.error), body.ctx)
      else
        var trailer := Tlvs(body.ctx, b[n..], true);
        Received(if trailer.result.Err? then Err(trailer.result.error) else Ok(Packet(body.result.value, trailer.result.value)),
                 trailer.ctx)
  }

  // ---- What accepted prefixes look like ----

  lemma KeptBitsAt(bits: nat, i: nat)
    ensures KeptBits(bits, i) == if i < bits / 8 then 8 else if i == bits / 8 then bits % 8 else 0
    ensures i >= Ceil8(bits) ==> KeptBits(bits, i) == 0
    ensures bits % 8 == 0 ==> Ceil8(bits) == bits / 8
    ensures bits % 8 != 0 ==> Ceil8(bits) == bits / 8 + 1
  {
  }

  lemma MaskLastAt(o: Bytes, bits: nat, i: nat)
    requires bits <= 8 * |o| && i < |o| && (i >= Ceil8(bits) ==> o[i] == 0)
    ensures MaskLast(o, bits)[i] == KeepHigh(o[i], KeptBits(bits, i))
  {
    hide KeptBits, Ceil8, KeepHigh;
    KeptBitsAt(bits, i);
    assert i < bits / 8 || i == bits / 8 || i >= Ceil8(bits);
  }

  lemma MaskLastIsMask(o: Bytes, bits: nat)
    requires bits <= 8 * |o| && forall i | Ceil8(bits) <= i < |o| :: o[i] == 0
    ensures MaskLast(o, bits) == MaskOctets(o, bits)
  {
    hide KeptBits, KeepHigh, MaskLast, Ceil8;
    forall i | 0 <= i < |o|
      ensures MaskLast(o, bits)[i] == MaskOctets(o, bits)[i]
    {
      MaskLastAt(o, bits, i);
    }
  }

  /** Octets lo to hi of r are those of src from the start on, masked to the prefix length. */
  predicate Copies(r: Bytes, bits: nat, lo: nat, hi: nat, src: Bytes) {
    && hi <= |r| && hi <= lo + |src|
    && forall i | lo <= i < hi :: r[i] == KeepHigh(src[i - lo], KeptBits(bits, i))
  }

  /** Section 4.6.9 of RFC 8966: an accepted IPv4 or IPv6 prefix whose length fits the address is its own
      masking; the omitted octets come from the default prefix of that encoding, the others from the message. */
  lemma AcceptedPrefixIsMasked(defaults: map<Byte, Addr>, b: Bytes, ae: Byte, plen: Byte, omitted: Byte)
    requires DefaultsFit(defaults) && ae in {AE_IPV4, AE_IPV6} && plen <= 8 * Octets(ae)
    requires DecodePrefix(defaults, b, ae, plen, omitted).Ok?
    ensures var p := DecodePrefix(defaults, b, ae, plen, omitted).value.0;
            && p.Valid() && p.bits == plen && Masked(p) == p
            && (omitted > 0 ==> ae in defaults && Copies(p.addr.Slice(), plen, 0, omitted, defaults[ae].Slice()))
            && Copies(p.addr.Slice(), plen, omitted, Ceil8(plen), b)
  {
    LengthAsInt8(ae, plen);
    var a := DecodeAddress(defaults, b, ae, omitted, Int8(plen));
    DecodedOctets(defaults, b, ae, omitted, Int8(plen));
    AssembledIsMasked(defaults, b, ae, omitted, plen);
    MaskOfOctets(a.value.0, plen);
  }

  lemma LengthAsInt8(ae: Byte, plen: Byte)
    requires ae in {AE_IPV4, AE_IPV6} && plen <= 8 * Octets(ae)
    ensures WrittenBits(ae, Int8(plen)) == plen
  {
  }

  lemma DecodedOctets(defaults: map<Byte, Addr>, b: Bytes, ae: Byte, omitted: Byte, plen: int)
    requires DefaultsFit(defaults) && ae in {AE_IPV4, AE_IPV6} && -128 <= plen < 128
    requires DecodeAddress(defaults, b, ae, omitted, plen).Ok?
    ensures var bits := WrittenBits(ae, plen);
            && bits <= 8 * Octets(ae) && omitted <= Ceil8(bits) && Ceil8(bits) - omitted <= |b| && (omitted > 0 ==> ae in defaults)
            && DecodeAddress(defaults, b, ae, omitted, plen).value.0.Slice() == Assembled(defaults, b, ae, omitted, bits)
  {
  }

  lemma MaskOfOctets(a: Addr, bits: nat)
    requires a.Valid() && !a.NoAddr? && bits <= a.BitLen() && MaskOctets(a.Slice(), bits) == a.Slice()
    ensures Masked(Prefix(a, bits)) == Prefix(a, bits)
  {
  }

  lemma AssembledIsMasked(defaults: map<Byte, Addr>, b: Bytes, ae: Byte, omitted: nat, bits: nat)
    requires DefaultsFit(defaults) && ae in {AE_IPV4, AE_IPV6, AE_V4_VIA_V6}
    requires omitted > 0 ==> ae in defaults
    requires bits <= 8 * Octets(ae) && omitted <= Ceil8(bits) && Ceil8(bits) - omitted <= |b|
    ensures var r := Assembled(defaults, b, ae, omitted, bits);
            && MaskOctets(r, bits) == r
            && (omitted > 0 ==> Copies(r, bits, 0, omitted, defaults[ae].Slice()))
            && Copies(r, bits, omitted, Ceil8(bits), b)
  {
    hide MaskOctets, MaskLast, Copies;
    var head := if omitted > 0 then defaults[ae].Slice()[..omitted] else [];
    MaskedPieces(head, b[..Ceil8(bits) - omitted], Octets(ae) - Ceil8(bits), bits,
                 if omitted > 0 then defaults[ae].Slice() else [], b, Assembled(defaults, b, ae, omitted, bits));
  }

  lemma MaskedPieces(a: Bytes, b: Bytes, n: nat, bits: nat, longA: Bytes, longB: Bytes, r: Bytes)
    requires Ceil8(bits) == |a| + |b| && r == MaskLast(a + b + Zeros(n), bits) && a <= longA && b <= longB
    ensures MaskOctets(r, bits) == r && Copies(r, bits, 0, |a|, longA) && Copies(r, bits, |a|, |a| + |b|, longB)
  {
    var o := a + b + Zeros(n);
    MaskLastIsMask(o, bits);
    MaskOctetsIdempotent(o, bits);
  }

  /** A length of 128 or more is read as a full address and, unless it fits, as no length at all. */
  lemma LongLengthIsFullAddress(defaults: map<Byte, Addr>, b: Bytes, ae: Byte, plen: Byte)
    requires DefaultsFit(defaults) && ae in {AE_IPV4, AE_IPV6} && plen >= 128 && |b| >= Octets(ae)
    ensures var r := DecodePrefix(defaults, b, ae, plen, 0);
            r.Ok? && r.value.0.addr.Slice() == b[..Octets(ae)]
            && r.value.0.bits == if ae == AE_IPV6 && plen == 128 then 128 else -1
  {
    var n := Octets(ae);
    assert [] + b[..n] + Zeros(0) == b[..n];
    assert Assembled(defaults, b, ae, 0, 8 * n) == b[..n];
  }

  // ---- Unknown types ----

  /** A complete sequence of sub-TLVs can be followed by more. */
  lemma {:induction false} SubTlvsConcat(v: Tlv, ae: Byte, a: Bytes, b: Bytes)
    requires SubTlvs(v, ae, a).error.None?
    ensures SubTlvs(v, ae, a + b) == SubTlvs(SubTlvs(v, ae, a).v, ae, b)
    decreases |a|
  {
    hide Sub, SameKind;
    if a == [] {
      assert a + b == b;
    } else {
      var (t, l, o) := Header(a).value;
      assert Header(a + b) == Header(a);
      assert (a + b)[o..o + l] == a[o..o + l];
      assert (a + b)[o + l..] == a[o + l..] + b;
      var s := Sub(v, ae, t, a[o..o + l]);
      SubTlvsConcat(if s.error.Some? then v else s.v, ae, a[o + l..], b);
    }
  }

  function SubBytes(t: Byte, p: Bytes): Bytes { [t, |p| % 256] + p }

  /** The next sub-TLV, whatever follows it. */
  lemma SubTlvsStep(v: Tlv, ae: Byte, t: Byte, p: Bytes, rest: Bytes)
    requires t != 0 && |p| < 256
    ensures var s := Sub(v, ae, t, p);
            SubTlvs(v, ae, SubBytes(t, p) + rest) ==
              if s.error == Some(UnsupportedValue) then
                if IsMandatory(t) then Filled(v, Some(UnsupportedButMandatory)) else SubTlvs(v, ae, rest)
              else if s.error.Some? then Filled(s.v, s.error)
              else if s.left > 0 then Filled(s.v, Some(TooLong))
              else SubTlvs(s.v, ae, rest)
  {
    var b := SubBytes(t, p) + rest;
    assert Header(b) == Ok((t, |p|, 2));
    assert b[2..2 + |p|] == p && b[2 + |p|..] == rest;
  }

  /** Section 4.4 of RFC 8966: among well-formed sub-TLVs an unknown one is ignored when its type is below 128 and
      rejects the TLV otherwise. */
  lemma UnknownSubTlv(v: Tlv, ae: Byte, a: Bytes, t: Byte, p: Bytes, b: Bytes)
    requires SubTlvs(v, ae, a).error.None? && t != 0 && |p| < 256
    requires Sub(SubTlvs(v, ae, a).v, ae, t, p).error == Some(UnsupportedValue)
    ensures SubTlvs(v, ae, a + SubBytes(t, p) + b) ==
            if IsMandatory(t) then Filled(SubTlvs(v, ae, a).v, Some(UnsupportedButMandatory)) else SubTlvs(v, ae, a + b)
  {
    assert a + SubBytes(t, p) + b == a + (SubBytes(t, p) + b);
    SubTlvsConcat(v, ae, a, SubBytes(t, p) + b);
    SubTlvsStep(SubTlvs(v, ae, a).v, ae, t, p, b);
    SubTlvsConcat(v, ae, a, b);
  }

  lemma FirstExtends(ctx: Context, a: Bytes, b: Bytes, trailer: bool)
    requires DefaultsFit(ctx.defaults) && a != [] && First(ctx, a, trailer).result.Ok?
    ensures First(ctx, a + b, trailer) == First(ctx, a, trailer)
  {
    var (t, l, o) := Header(a).value;
    assert Header(a + b) == Header(a);
    assert (a + b)[o..o + l] == a[o..o + l];
  }

  /** A complete sequence of TLVs can be followed by more, which start in the state it leaves. */
  lemma {:induction false} TlvsConcat(ctx: Context, a: Bytes, b: Bytes, trailer: bool)
    requires DefaultsFit(ctx.defaults) && Tlvs(ctx, a, trailer).result.Ok?
    ensures var front, back := Tlvs(ctx, a, trailer), Tlvs(Tlvs(ctx, a, trailer).ctx, b, trailer);
            Tlvs(ctx, a + b, trailer) ==
              Parsed(if back.result.Err? then back.result else Ok(front.result.value + back.result.value), back.ctx)
    decreases |a|
  {
    hide First;
    if a == [] {
      assert a + b == b;
      var back := Tlvs(ctx, b, trailer);
      if back.result.Ok? {
        assert [] + back.result.value == back.result.value;
      }
    } else {
      FirstExtends(ctx, a, b, trailer);
      var d := First(ctx, a, trailer);
      assert (a + b)[d.size..] == a[d.size..] + b;
      TlvsConcat(d.ctx, a[d.size..], b, trailer);
      var front, back := Tlvs(d.ctx, a[d.size..], trailer), Tlvs(Tlvs(ctx, a, trailer).ctx, b, trailer);
      if back.result.Ok? {
        assert [d.result.value] + (front.result.value + back.result.value)
            == [d.result.value] + front.result.value + back.result.value;
      }
    }
  }

  /** Unlike section 4.3 of RFC 8966 asks, an unknown TLV is not skipped: it rejects the packet, wherever it stands. */
  lemma UnknownTlvRejects(ctx: Context, a: Bytes, t: Byte, p: Bytes, b: Bytes)
    requires DefaultsFit(ctx.defaults) && Tlvs(ctx, a, false).result.Ok? && t > 10 && |p| < 256
    ensures Tlvs(ctx, a + ([t, |p|] + p + b), false).result == Err(UnsupportedValue)
  {
    UnknownFirst(Tlvs(ctx, a, false).ctx, t, p, b);
    TlvsConcat(ctx, a, [t, |p|] + p + b, false);
  }

  lemma UnknownPayload(ctx: Context, t: Byte, p: Bytes)
    requires DefaultsFit(ctx.defaults) && t > 10
    ensures Payload(ctx, t, p) == Refused(ctx, UnsupportedValue)
  {
  }

  lemma UnknownFirst(ctx: Context, t: Byte, p: Bytes, b: Bytes)
    requires DefaultsFit(ctx.defaults) && t > 10 && |p| < 256
    ensures Tlvs(ctx, [t, |p|] + p + b, false).result == Err(UnsupportedValue)
  {
    var c := [t, |p|] + p + b;
    assert Header(c) == Ok((t, |p|, 2));
    UnknownPayload(ctx, t, c[2..2 + |p|]);
    assert First(ctx, c, false).result == Err(UnsupportedValue);
  }
}
