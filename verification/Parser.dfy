/** The parser object: it walks octets TLV by TLV and keeps default prefixes, next hops and the router-id from one
    TLV to the next. Every method is proved to do what the decoding and encoding functions say. */
module PacketParser {
  import opened Net
  import opened BabelTypes
  import opened Wire
  import opened Decoder
  import opened Encoder

  lemma TlvsByStep(ctx: Context, b: Bytes, trailer: bool)
    requires DefaultsFit(ctx.defaults) && b != []
    ensures var d := First(ctx, b, trailer);
            Tlvs(ctx, b, trailer) ==
              if d.result.Err? then Parsed(Err(d.result.error), d.ctx)
              else
                var rest := Tlvs(d.ctx, b[d.size..], trailer);
                Parsed(if rest.result.Err? then rest.result else Ok([d.result.value] + rest.result.value), rest.ctx)
  {
    hide First;
  }

  lemma NoTlvs(ctx: Context, trailer: bool)
    requires DefaultsFit(ctx.defaults)
    ensures Tlvs(ctx, [], trailer) == Parsed(Ok([]), ctx)
  {
  }

  class Parser {
    var currentDefaultPrefix: map<Byte, Addr>
    var currentNextHop: map<Family, Addr>
    var currentRouterId: RouterId

    ghost function State(): Context
      reads this
    {
      Context(currentDefaultPrefix, currentNextHop, currentRouterId)
    }

    ghost predicate Valid()
      reads this
    {
      DefaultsFit(currentDefaultPrefix)
    }

    constructor ()
      ensures Valid() && State() == FRESH
    {
      currentDefaultPrefix := map[];
      currentNextHop := map[];
      currentRouterId := UNSPECIFIED_ID;
    }

    method Reset()
      modifies this
      ensures Valid() && State() == FRESH
    {
      currentDefaultPrefix := map[];
      currentNextHop := map[];
      currentRouterId := UNSPECIFIED_ID;
    }

    /** forEachSubValue, with the fields filled in so far carried along. */
    method SubValues(v: Tlv, ae: Byte, b: Bytes) returns (w: Tlv, error: Option<Error>)
      ensures Filled(w, error) == SubTlvs(v, ae, b)
    {
      w := v;
      var rest := b;
      while rest != []
        invariant SubTlvs(v, ae, b) == SubTlvs(w, ae, rest)
        decreases |rest|
      {
        var h := Header(rest);
        if h.Err? {
          return w, Some(h.error);
        }
        var (t, l, o) := h.value;
        if |rest| - o < l {
          return w, Some(TooShort);
        }
        var s := Sub(w, ae, t, rest[o..o + l]);
        if s.error == Some(UnsupportedValue) {
          if IsMandatory(t) {
            return w, Some(UnsupportedButMandatory);
          }
        } else if s.error.Some? {
          return s.v, s.error;
        } else if s.left > 0 {
          return s.v, Some(TooLong);
        } else {
          w := s.v;
        }
        rest := rest[o + l..];
      }
      error := None;
    }

    method RouterIdTlv(b: Bytes) returns (v: Result<Tlv>, left: nat)
      requires Valid()
      modifies this`currentRouterId
      ensures Decoded(v, left, State()) == DecodeRouterId(old(State()), b)
    {
      left := 0;
      if |b| < 10 {
        return Err(TooShort), 0;
      }
      var rid := b[2..10];
      if !ValidId(rid) {
        return Err(InvalidRouterId), 0;
      }
      currentRouterId := rid;
      return Ok(RouterIdValue(rid)), |b| - 10;
    }

    method NextHopTlv(b: Bytes) returns (v: Result<Tlv>, left: nat)
      requires Valid()
      modifies this`currentNextHop
      ensures Decoded(v, left, State()) == DecodeNextHop(old(State()), b)
    {
      if |b| < 2 {
        return Err(TooShort), 0;
      }
      var a := DecodeAddress(currentDefaultPrefix, b[2..], b[0], 0, -1);
      if a.Err? {
        return Err(a.error), 0;
      }
      currentNextHop := currentNextHop[HopFamily(b[0]) := a.value.0];
      return Ok(NextHop(a.value.0)), |b| - 2 - a.value.1;
    }

    /** What the flags of an update make the parser remember. */
    method ApplyFlags(ae: Byte, flags: Byte, a: Addr)
      requires Valid() && a.Valid() && !a.NoAddr? && (ae == AE_IPV6 ==> a.V6?)
      modifies this`currentDefaultPrefix, this`currentRouterId
      ensures State() == AfterUpdate(old(State()), ae, flags, a) && Valid()
    {
      if SetsDefault(flags) {
        currentDefaultPrefix := currentDefaultPrefix[ae := a];
      }
      if SetsRouterId(flags) {
        currentRouterId := RouterIdFromAddr(a);
      }
    }

    /** The state changes only once the whole TLV is accepted; router-id and next hop are filled in afterwards. */
    method Update(b: Bytes) returns (v: Result<Tlv>)
      requires Valid()
      modifies this`currentDefaultPrefix, this`currentRouterId
      ensures Decoded(v, 0, State()) == DecodeUpdate(old(State()), b) && Valid()
    {
      hide DecodePrefix, SubTlvs, AfterUpdate, U16At, DecodeInterval;
      if |b| < 10 {
        return Err(TooShort);
      }
      var ae := b[0];
      var p := DecodePrefix(currentDefaultPrefix, b[10..], if ae == AE_V4_VIA_V6 then AE_IPV4 else ae, b[2], b[3]);
      if p.Err? {
        return Err(p.error);
      }
      var bare := Announcement(b[1], DecodeInterval(U16At(b, 4)), U16At(b, 6), U16At(b, 8), p.value.0,
                               UNSPECIFIED_ID, NoAddr, ae == AE_V4_VIA_V6, NO_QUALITY, None);
      var w, error := SubValues(bare, ae, b[10 + p.value.1..]);
      if error.Some? {
        return Err(error.value);
      }
      ApplyFlags(ae, b[1], p.value.0.addr);
      var f := FamilyOf(ae);
      var hop := if f in currentNextHop then currentNextHop[f] else NoAddr;
      return Ok(w.(rid := currentRouterId, hop := hop));
    }

    /** valuePayload: dispatch on the type. */
    method Value(t: Byte, b: Bytes) returns (v: Result<Tlv>, left: nat)
      requires Valid()
      modifies this
      ensures Decoded(v, left, State()) == Payload(old(State()), t, b) && Valid()
    {
      if t == 6 {
        v, left := RouterIdTlv(b);
      } else if t == 7 {
        v, left := NextHopTlv(b);
      } else if t == 8 {
        v := Update(b);
        left := 0;
      } else {
        v, left := StatelessValue(t, b);
      }
    }

    /** The types that leave the parser state alone. */
    method StatelessValue(t: Byte, b: Bytes) returns (v: Result<Tlv>, left: nat)
      requires Valid() && t !in {6, 7, 8}
      ensures Decoded(v, left, State()) == Payload(State(), t, b)
    {
      ghost var ctx := State();
      var d := Payload(Context(currentDefaultPrefix, currentNextHop, currentRouterId), t, b);
      return d.result, d.left;
    }

    /** The TLVs read so far, then what the rest gives. */
    ghost function Continued(vs: seq<Tlv>, rest: Parsed): Parsed {
      Parsed(if rest.result.Err? then rest.result else Ok(vs + rest.result.value), rest.ctx)
    }

    /** forEachValue over valuePayload. */
    method Values(b: Bytes, trailer: bool) returns (r: Result<seq<Tlv>>)
      requires Valid()
      modifies this
      ensures Parsed(r, State()) == Tlvs(old(State()), b, trailer) && Valid()
    {
      hide Payload, Tlvs;
      var vs: seq<Tlv> := [];
      var rest := b;
      ghost var all := Tlvs(State(), b, trailer);
      assert all.result.Ok? ==> vs + all.result.value == all.result.value;
      while rest != []
        invariant Valid()
        invariant Tlvs(old(State()), b, trailer) == Continued(vs, Tlvs(State(), rest, trailer))
        decreases |rest|
      {
        TlvsByStep(State(), rest, trailer);
        var h := Header(rest);
        if h.Err? {
          return Err(h.error);
        }
        var (t, l, o) := h.value;
        if |rest| - o < l {
          return Err(TooShort);
        }
        if trailer && !IsTrailerType(t) {
          return Err(InvalidForTrailer);
        }
        ghost var before := State();
        var v, left := Value(t, rest[o..o + l]);
        if v.Err? {
          return Err(v.error);
        }
        if left > 0 {
          return Err(TooLong);
        }
        ghost var tail := Tlvs(State(), rest[o + l..], trailer);
        assert First(before, rest, trailer) == Taken(v, o + l, State());
        assert tail.result.Ok? ==> vs + ([v.value] + tail.result.value) == vs + [v.value] + tail.result.value;
        vs := vs + [v.value];
        rest := rest[o + l..];
      }
      NoTlvs(State(), trailer);
      assert vs + [] == vs;
      return Ok(vs);
    }

    method ReadPacket(b: Bytes) returns (r: Result<Packet>)
      requires Valid()
      modifies this
      ensures Received(r, State()) == DecodePacket(old(State()), b) && Valid()
    {
      hide Tlvs;
      if |b| < 1 {
        return Err(TooShort);
      }
      if b[0] != MAGIC {
        return Err(InvalidMagic);
      }
      if |b| < 2 {
        return Err(TooShort);
      }
      if b[1] != VERSION {
        return Err(UnsupportedVersion);
      }
      if |b| < 4 || |b| - 4 < U16At(b, 2) {
        return Err(TooShort);
      }
      var n := 4 + U16At(b, 2);
      var body := Values(b[4..n], false);
      if body.Err? {
        return Err(body.error);
      }
      var trailer := Values(b[n..], true);
      if trailer.Err? {
        return Err(trailer.error);
      }
      return Ok(Packet(body.value, trailer.value));
    }

    // ---- Writing ----

    /** appendValueHeader: a placeholder for the length, the payload, then the length. */
    method AppendFramed(b: Bytes, t: Byte, payload: Bytes) returns (r: Bytes)
      ensures r == b + SubBytes(t, payload)
    {
      var at := |b|;
      r := b + [t, 0];
      r := r + payload;
      r := r[at + 1 := (|r| - at - 2) % 256];
    }

    method AppendTlv(b: Bytes, v: Sendable) returns (r: Bytes)
      requires Valid()
      modifies this
      ensures r == b + TlvBytes(v) && State() == AfterSending(old(State()), v) && Valid()
    {
      if v.Pad1? {
        return b + [0];
      }
      hide PayloadBytes;
      r := AppendFramed(b, TypeOf(v), PayloadBytes(v));
      if v.Announcement? {
        ApplyFlags(UpdateAe(v.prefix, v.v4ViaV6), v.flags, v.prefix.addr);
      }
    }

    method AppendTlvs(b: Bytes, vs: seq<Sendable>) returns (r: Bytes)
      requires Valid()
      modifies this
      ensures r == b + TlvsBytes(vs) && State() == AfterSendingAll(old(State()), vs) && Valid()
    {
      hide TlvBytes, AfterSending;
      r := b;
      for i := 0 to |vs|
        invariant r == b + TlvsBytes(vs[..i]) && State() == AfterSendingAll(old(State()), vs[..i]) && Valid()
      {
        assert vs[..i + 1][..i] == vs[..i];
        r := AppendTlv(r, vs[i]);
      }
      assert vs[..|vs|] == vs;
    }

    /** AppendPacket: the length of the body is filled in once it is known. */
    method AppendPacket(b: Bytes, body: seq<Sendable>, trailer: seq<Sendable>) returns (r: Bytes)
      requires Valid()
      modifies this
      ensures r == b + PacketBytes(body, trailer) && State() == AfterSendingAll(AfterSendingAll(old(State()), body), trailer)
      ensures Valid()
    {
      hide TlvsBytes, AfterSendingAll;
      var at := |b|;
      r := b + [MAGIC, VERSION, 0, 0];
      r := AppendTlvs(r, body);
      var length: U16 := (|r| - at - 4) % 0x1_0000;
      r := AppendTlvs(r, trailer);
      r := r[at + 2 := length / 256];
      r := r[at + 3 := length % 256];
      assert r == b + ([MAGIC, VERSION] + U16Bytes(length) + TlvsBytes(body) + TlvsBytes(trailer));
    }

    /** ValuesLength: a uint16 sum. */
    method LengthOf(vs: seq<Sendable>) returns (n: U16)
      ensures n == TlvsLength(vs)
    {
      hide TlvLength;
      n := 0;
      for i := 0 to |vs|
        invariant n == TlvsLength(vs[..i])
      {
        assert vs[..i + 1][..i] == vs[..i];
        n := (n + TlvLength(vs[i]) % 0x1_0000) % 0x1_0000;
      }
      assert vs[..|vs|] == vs;
    }
  }
}
