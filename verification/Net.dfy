/** Octets, IP addresses and prefixes, as package net/netip presents them to the Babel code. */
module Net {

  type Byte = b: nat | b < 256
  type U16 = n: nat | n < 0x1_0000
  type U32 = n: nat | n < 0x1_0000_0000

  datatype Option<+T> = None | Some(value: T)

  /** NoAddr is the zero netip.Addr. A 4-in-6 address is a V6 address. */
  datatype Addr = NoAddr | V4(octets: seq<Byte>) | V6(octets: seq<Byte>)
  {
    predicate Valid() {
      match this
      case NoAddr => true
      case V4(o) => |o| == 4
      case V6(o) => |o| == 16
    }

    /** Octets of AsSlice. */
    function Slice(): seq<Byte> {
      match this
      case NoAddr => []
      case V4(o) => o
      case V6(o) => o
    }

    function BitLen(): nat { 8 * |Slice()| }

    predicate IsUnspecified() { !NoAddr? && forall i | 0 <= i < |Slice()| :: Slice()[i] == 0 }

    predicate Is4In6() {
      && V6? && |octets| == 16
      && (forall i | 0 <= i < 10 :: octets[i] == 0)
      && octets[10] == 255 && octets[11] == 255
    }

    /** fe80::/10, asked only of IPv6 addresses by the callers. */
    predicate IsLinkLocal6() { V6? && |octets| == 16 && octets[0] == 0xfe && octets[1] / 64 == 2 }

    function Unmap(): Addr { if Is4In6() then V4(octets[12..]) else this }
  }

  /** Bits is -1 for an invalid prefix. */
  datatype Prefix = Prefix(addr: Addr, bits: int)
  {
    predicate Valid() { addr.Valid() && !addr.NoAddr? && 0 <= bits <= addr.BitLen() }
  }

  const ZERO_PREFIX := Prefix(NoAddr, -1)

  /** netip.PrefixFrom keeps the address and forgets a length that does not fit it. */
  function PrefixFrom(addr: Addr, bits: int): Prefix {
    Prefix(addr, if !addr.NoAddr? && 0 <= bits <= addr.BitLen() then bits else -1)
  }

  /** 2^k for k <= 8. */
  function Pow2(k: nat): (r: nat)
    requires k <= 8
    ensures 1 <= r <= 256
  {
    if k == 0 then 1 else if k == 1 then 2 else if k == 2 then 4 else if k == 3 then 8
    else if k == 4 then 16 else if k == 5 then 32 else if k == 6 then 64 else if k == 7 then 128 else 256
  }

  /** The octet with everything below its `keep` high-order bits cleared. */
  function KeepHigh(b: Byte, keep: nat): (r: Byte)
    requires keep <= 8
    ensures r <= b
    ensures keep == 0 ==> r == 0
    ensures keep == 8 ==> r == b
  {
    b - b % Pow2(8 - keep)
  }

  lemma KeepHighIdempotent(b: Byte, keep: nat)
    requires keep <= 8
    ensures KeepHigh(KeepHigh(b, keep), keep) == KeepHigh(b, keep)
  {
    var p := Pow2(8 - keep);
    assert (b - b % p) % p == 0;
  }

  /** How many bits of octet i lie inside a prefix of this length. */
  function KeptBits(bits: nat, i: nat): (k: nat)
    ensures k <= 8
  {
    if bits >= 8 * i + 8 then 8 else if bits <= 8 * i then 0 else bits - 8 * i
  }

  function MaskOctets(s: seq<Byte>, bits: nat): (r: seq<Byte>)
    ensures |r| == |s|
    ensures forall i | 0 <= i < |s| :: r[i] == KeepHigh(s[i], KeptBits(bits, i))
  {
    seq(|s|, i requires 0 <= i < |s| => KeepHigh(s[i], KeptBits(bits, i)))
  }

  lemma MaskOctetsIdempotent(s: seq<Byte>, bits: nat)
    ensures MaskOctets(MaskOctets(s, bits), bits) == MaskOctets(s, bits)
  {
    forall i | 0 <= i < |s|
      ensures MaskOctets(MaskOctets(s, bits), bits)[i] == MaskOctets(s, bits)[i]
    {
      KeepHighIdempotent(s[i], KeptBits(bits, i));
    }
  }

  function MaskAddr(a: Addr, bits: nat): (r: Addr)
    ensures a.Valid() ==> r.Valid()
    ensures r.BitLen() == a.BitLen()
  {
    match a
    case NoAddr => NoAddr
    case V4(o) => V4(MaskOctets(o, bits))
    case V6(o) => V6(MaskOctets(o, bits))
  }

  /** netip.Prefix.Masked; an invalid prefix becomes the zero prefix. */
  function Masked(p: Prefix): Prefix {
    if p.Valid() then Prefix(MaskAddr(p.addr, p.bits), p.bits) else ZERO_PREFIX
  }

  lemma MaskedIdempotent(p: Prefix)
    ensures Masked(Masked(p)) == Masked(p)
  {
    if p.Valid() {
      match p.addr
      case V4(o) => MaskOctetsIdempotent(o, p.bits);
      case V6(o) => MaskOctetsIdempotent(o, p.bits);
    }
  }

  /** Big-endian value of an octet string. */
  function Value(s: seq<Byte>): nat {
    if s == [] then 0 else 256 * Value(s[..|s| - 1]) + s[|s| - 1]
  }

  /** netip.Addr.Compare(a, b) < 0 for addresses without a zone. */
  predicate AddrLess(a: Addr, b: Addr) {
    a.BitLen() < b.BitLen() || (a.BitLen() == b.BitLen() && Value(a.Slice()) < Value(b.Slice()))
  }
}
