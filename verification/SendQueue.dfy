/** The send queue: values wait in line and leave in packets no longer than the MTU. A list of values may be cut anywhere,
    and each packet is read by itself. */
module SendQueue {
  import opened Net
  import opened BabelTypes
  import opened SpeakerState
  import opened Wire
  import opened Decoder
  import opened Encoder
  import opened RoundTrip
  import opened PacketParser
  import opened Announcing

  // ---- One packet of a longer list ----

  /** Where the TLVs of update j begin. */
  function Begin(i: Interface, us: seq<Outgoing>, j: nat): nat
    requires j <= |us|
  {
    |AllLines(i, us[..j])|
  }

  lemma {:induction false} LinesAt(i: Interface, us: seq<Outgoing>, j: nat)
    requires j < |us|
    ensures var lines := Lines(i, us[j].update, us[j].quality);
            && Begin(i, us, j) + |lines| <= |AllLines(i, us)|
            && AllLines(i, us)[Begin(i, us, j)..Begin(i, us, j) + |lines|] == lines
  {
    hide Lines;
    var n := |us| - 1;
    if j < n {
      LinesAt(i, us[..n], j);
      assert us[..n][..j] == us[..j];
    }
  }

  lemma {:induction false} LineOfSome(i: Interface, us: seq<Outgoing>, v: Tlv) returns (j: nat)
    requires v in AllLines(i, us)
    ensures j < |us| && v in Lines(i, us[j].update, us[j].quality)
  {
    hide Lines;
    var n := |us| - 1;
    if v in AllLines(i, us[..n]) {
      j := LineOfSome(i, us[..n], v);
    } else {
      j := n;
    }
  }

  lemma LineKeepsHops(ctx: Context, i: Interface, us: seq<Outgoing>, j: nat, v: Sendable)
    requires Ordinary(i) && AllSent(i, us) && j < |us| && HopsOf(i, ctx) && v in Lines(i, us[j].update, us[j].quality)
    ensures HopsOf(i, AfterReceiving(ctx, v))
  {
    var o := us[j];
    hide Sent, Ordinary, HopsOf, EncodingOf, UpdateAe;
    match v
    case RouterIdValue(rid) => RouterHeard(ctx, i, rid, v);
    case NextHop(a) => HopHeard(ctx, i, o.update.prefix, v);
    case Announcement(_, _, _, _, p, _, _, v6, _, _) =>
      SentIsProper(i, us, j);
      PlainFlags(ctx, UpdateAe(p, v6), p.addr);
  }

  lemma SentIsProper(i: Interface, us: seq<Outgoing>, j: nat)
    requires AllSent(i, us) && j < |us|
    ensures Proper(us[j].update.prefix) && us[j].update.rid != UNSPECIFIED_ID
  {
    assert us[j] in us;
  }

  /** A fresh parser remembers only addresses of the interface, wherever the packet begins. */
  lemma {:induction false} PartKeepsHops(i: Interface, us: seq<Outgoing>, part: seq<Sendable>)
    requires Ordinary(i) && AllSent(i, us) && forall v | v in part :: v in AllLines(i, us)
    ensures HopsOf(i, AfterAll(FRESH, part))
  {
    hide Ordinary, Sent, Lines, AfterReceiving;
    if part != [] {
      var front, v := part[..|part| - 1], part[|part| - 1];
      PartKeepsHops(i, us, front);
      assert v in AllLines(i, us);
      var j := LineOfSome(i, us, v);
      LineKeepsHops(AfterAll(FRESH, front), i, us, j, v);
    }
  }

  /** The update has its TLVs from its RouterId on in the packet: it is heard as written. */
  lemma WholeUpdateHeard(i: Interface, us: seq<Outgoing>, part: seq<Sendable>, a: seq<Sendable>, j: nat, o: Outgoing,
                         lines: seq<Sendable>, b: seq<Sendable>)
    requires Ordinary(i) && AllSent(i, us) && j < |us| && o == us[j]
    requires lines == Lines(i, o.update, o.quality) && part == a + lines + b && forall v | v in a :: v in AllLines(i, us)
    ensures ResolvedAll(FRESH, part)[|a|..|a| + |lines|] == Heard(i, o)
  {
    hide Ordinary, Sent, Lines, Heard, AfterAll, HopsOf;
    PartKeepsHops(i, us, a);
    LinesHeard(AfterAll(FRESH, a), i, us, j, o, lines);
    AfterAllJoin(FRESH, a, lines);
    AfterAllJoin(FRESH, a + lines, b);
  }

  lemma HopNamesNoRouter(a: seq<Sendable>)
    requires |a| < 2 && (a != [] ==> a[0].NextHop?)
    ensures AfterAll(FRESH, a).rid == UNSPECIFIED_ID
  {
    hide EncodingOf;
    if a != [] {
      One(FRESH, a[0]);
      assert a == [a[0]];
    }
  }

  lemma UpdateNamesNoRouter(ctx: Context, i: Interface, us: seq<Outgoing>, j: nat, o: Outgoing, v: Sendable)
    requires Ordinary(i) && AllSent(i, us) && j < |us| && o == us[j]
    requires v == Lines(i, o.update, o.quality)[|Lines(i, o.update, o.quality)| - 1]
    ensures Resolved(ctx, v).Announcement? && Resolved(ctx, v).rid == ctx.rid
  {
    SentIsProper(i, us, j);
    hide Ordinary, Sent, UpdateAe, EncodingOf, HopFor;
    PlainFlags(ctx, UpdateAe(v.prefix, v.v4ViaV6), v.prefix.addr);
  }

  /** The packet begins behind the update's RouterId: it is heard without one. */
  lemma TornUpdateHeard(i: Interface, us: seq<Outgoing>, j: nat, o: Outgoing, part: seq<Sendable>, a: seq<Sendable>, v: Sendable,
                        b: seq<Sendable>)
    requires Ordinary(i) && AllSent(i, us) && j < |us| && o == us[j] && part == a + [v] + b && |a| < 2
    requires a != [] ==> a[0].NextHop?
    requires v == Lines(i, o.update, o.quality)[|Lines(i, o.update, o.quality)| - 1]
    ensures var w := ResolvedAll(FRESH, part)[|a|]; w.Announcement? && w.rid == UNSPECIFIED_ID
  {
    hide Ordinary, Sent, Lines, Resolved, ResolvedAll, AfterAll;
    assert part[..|a|] == a && part[|a|] == v;
    AllAt(FRESH, part, |a|);
    HopNamesNoRouter(a);
    UpdateNamesNoRouter(AfterAll(FRESH, a), i, us, j, o, v);
  }

  /** The TLVs of update j are in a body whose first TLV has number lo in the list, and all of them as written. */
  ghost predicate AsWritten(i: Interface, us: seq<Outgoing>, j: nat, lo: nat, body: seq<Tlv>)
    requires j < |us|
  {
    var begin, end := Begin(i, us, j), Begin(i, us, j + 1);
    lo <= begin < end <= lo + |body| && body[begin - lo..end - lo] == Heard(i, us[j])
  }

  /** The last of them, the update itself, has no router-id. */
  ghost predicate Nameless(i: Interface, us: seq<Outgoing>, j: nat, lo: nat, body: seq<Tlv>)
    requires j < |us|
  {
    var last := Begin(i, us, j + 1) - 1;
    lo <= last < lo + |body| && body[last - lo].Announcement? && body[last - lo].rid == UNSPECIFIED_ID
  }

  /** Update j as a packet with TLVs [lo, hi) of the list carries it: as written if its RouterId is in the packet too, and
      otherwise without a router-id, so that the receiver ignores it. */
  ghost predicate HeardInPart(i: Interface, us: seq<Outgoing>, j: nat, lo: nat, hi: nat, body: seq<Tlv>)
    requires j < |us|
  {
    lo < Begin(i, us, j + 1) <= hi ==>
      if lo <= Begin(i, us, j) then AsWritten(i, us, j, lo, body) else Nameless(i, us, j, lo, body)
  }

  lemma NextBegin(i: Interface, us: seq<Outgoing>, j: nat)
    requires j < |us|
    ensures Begin(i, us, j + 1) == Begin(i, us, j) + |Lines(i, us[j].update, us[j].quality)|
    ensures Begin(i, us, j + 1) <= |AllLines(i, us)|
  {
    hide Lines;
    assert us[..j + 1][..j] == us[..j];
    LinesAt(i, us, j);
  }

  lemma WholeInPart(i: Interface, us: seq<Outgoing>, vs: seq<Sendable>, lo: nat, hi: nat, j: nat, part: seq<Sendable>)
    requires Ordinary(i) && AllSent(i, us) && vs == AllLines(i, us) && lo <= hi <= |vs| && j < |us|
    requires lo <= Begin(i, us, j) && Begin(i, us, j + 1) <= hi && part == vs[lo..hi]
    ensures AsWritten(i, us, j, lo, ResolvedAll(FRESH, part))
  {
    hide Ordinary, Sent, Lines, Heard, AllLines, ResolvedAll, Begin;
    NextBegin(i, us, j);
    LinesAt(i, us, j);
    LinesShape(i, us[j]);
    var begin, end := Begin(i, us, j), Begin(i, us, j + 1);
    assert part == vs[lo..begin] + vs[begin..end] + vs[end..hi];
    assert us[j] in us;
    WholeUpdateHeard(i, us, part, vs[lo..begin], j, us[j], vs[begin..end], vs[end..hi]);
  }

  lemma TornInPart(i: Interface, us: seq<Outgoing>, vs: seq<Sendable>, lo: nat, hi: nat, j: nat, part: seq<Sendable>)
    requires Ordinary(i) && AllSent(i, us) && vs == AllLines(i, us) && lo <= hi <= |vs| && j < |us|
    requires Begin(i, us, j) < lo < Begin(i, us, j + 1) <= hi && part == vs[lo..hi]
    ensures Nameless(i, us, j, lo, ResolvedAll(FRESH, part))
  {
    hide Ordinary, Sent, Lines, Heard, AllLines, ResolvedAll, Begin;
    NextBegin(i, us, j);
    LinesAt(i, us, j);
    LinesShape(i, us[j]);
    var begin, end := Begin(i, us, j), Begin(i, us, j + 1);
    assert part == vs[lo..end - 1] + [vs[end - 1]] + vs[end..hi];
    assert vs[begin..end][end - 1 - begin] == vs[end - 1];
    if lo < end - 1 {
      assert vs[begin..end][1] == vs[lo];
    }
    assert us[j] in us;
    TornUpdateHeard(i, us, j, us[j], part, vs[lo..end - 1], vs[end - 1], vs[end..hi]);
  }

  lemma PartResolves(i: Interface, us: seq<Outgoing>, vs: seq<Sendable>, lo: nat, hi: nat, j: nat, part: seq<Sendable>)
    requires Ordinary(i) && AllSent(i, us) && vs == AllLines(i, us) && lo <= hi <= |vs| && j < |us|
    requires part == vs[lo..hi]
    ensures HeardInPart(i, us, j, lo, hi, ResolvedAll(FRESH, part))
  {
    hide Ordinary, Sent, AllLines, ResolvedAll, Begin, AsWritten, Nameless;
    if lo < Begin(i, us, j + 1) <= hi {
      if lo <= Begin(i, us, j) {
        WholeInPart(i, us, vs, lo, hi, j, part);
      } else {
        TornInPart(i, us, vs, lo, hi, j, part);
      }
    }
  }

  lemma LinesShape(i: Interface, o: Outgoing)
    ensures var lines := Lines(i, o.update, o.quality);
            2 <= |lines| <= 3 && (|lines| == 3 ==> lines[1].NextHop?)
  {
  }

  /** A packet with any part of what encodeRoutes wrote is accepted, and of each update whose Update TLV it has all is heard
      as written if the update's RouterId is in the packet too; otherwise the update is heard without router-id. */
  lemma PartIsHeard(i: Interface, us: seq<Outgoing>, vs: seq<Sendable>, lo: nat, hi: nat)
    requires Ordinary(i) && AllSent(i, us) && vs == AllLines(i, us) && lo <= hi <= |vs|
    requires |TlvsBytes(vs[lo..hi])| < 0x1_0000
    ensures var r := DecodePacket(FRESH, PacketBytes(vs[lo..hi], [])).result;
            && r.Ok? && r.value.trailer == [] && |r.value.body| == hi - lo
            && forall j | 0 <= j < |us| :: HeardInPart(i, us, j, lo, hi, r.value.body)
  {
    hide Ordinary, Sent, AllLines, ResolvedAll, AfterAll, Canonical, PacketBytes, TlvsBytes, DecodePacket, HeardInPart;
    AllLinesAreCanonical(i, us);
    assert AllCanonical(vs[lo..hi]);
    PacketRoundTrip(vs[lo..hi], []);
    forall j | 0 <= j < |us|
      ensures HeardInPart(i, us, j, lo, hi, ResolvedAll(FRESH, vs[lo..hi]))
    {
      PartResolves(i, us, vs, lo, hi, j, vs[lo..hi]);
    }
  }

  // ---- The queue ----

  /** Transmit times are filled in when a value leaves, not when it is queued. */
  function Stamped(v: Sendable, now: U32): Sendable {
    if v.Hello? && v.transmit.Some? then v.(transmit := Some(now)) else v
  }

  /** The values as they leave, where now(k) is the clock when the k-th is taken. */
  function StampedAll(vs: seq<Sendable>, now: nat -> U32): (r: seq<Sendable>)
    ensures |r| == |vs|
  {
    var n := |vs| - 1;
    if vs == [] then [] else StampedAll(vs[..n], now) + [Stamped(vs[n], now(n))]
  }

  lemma StampKeepsSize(v: Sendable, now: U32)
    ensures TlvLength(Stamped(v, now)) == TlvLength(v) && (SizedTlv(v) ==> SizedTlv(Stamped(v, now)))
  {
  }

  lemma {:induction false} StampLeavesUpdates(vs: seq<Sendable>, now: nat -> U32)
    requires forall v | v in vs :: !v.Hello?
    ensures StampedAll(vs, now) == vs
  {
    if vs != [] {
      StampLeavesUpdates(vs[..|vs| - 1], now);
      assert vs[|vs| - 1] in vs;
    }
  }

  lemma {:induction false} NoHellos(i: Interface, us: seq<Outgoing>)
    ensures forall v | v in AllLines(i, us) :: !v.Hello?
  {
    if us != [] {
      NoHellos(i, us[..|us| - 1]);
    }
  }

  /** One more value. */
  lemma StampedNext(vs: seq<Sendable>, n: nat, now: nat -> U32)
    requires n < |vs|
    ensures TlvsBytes(StampedAll(vs[..n + 1], now)) == TlvsBytes(StampedAll(vs[..n], now)) + TlvBytes(Stamped(vs[n], now(n)))
  {
    hide TlvBytes, Stamped;
    assert vs[..n + 1][..n] == vs[..n];
    var all, v := StampedAll(vs[..n], now), Stamped(vs[n], now(n));
    assert StampedAll(vs[..n + 1], now) == all + [v];
    assert (all + [v])[..|all|] == all;
  }

  lemma PacketFinished(b: Bytes, body: seq<Sendable>, length: U16)
    requires b == [MAGIC, VERSION, 0, 0] + TlvsBytes(body) && length == (|b| - 4) % 0x1_0000
    ensures b[2 := length / 256][3 := length % 256] == PacketBytes(body, [])
  {
    hide TlvsBytes;
    assert TlvsBytes([]) == [] by { NothingWritten(); }
  }

  lemma NothingWritten()
    ensures TlvsBytes([]) == []
  {
  }

  /** So each packet that the queue cuts from the list is heard. */
  lemma QueuedPartIsHeard(i: Interface, us: seq<Outgoing>, vs: seq<Sendable>, lo: nat, hi: nat, now: nat -> U32, b: Bytes)
    requires Ordinary(i) && AllSent(i, us) && vs == AllLines(i, us) && lo <= hi <= |vs|
    requires b == PacketBytes(StampedAll(vs[lo..hi], now), []) && |b| < 0x1_0000
    ensures var r := DecodePacket(FRESH, b).result;
            && r.Ok? && r.value.trailer == [] && |r.value.body| == hi - lo
            && forall j | 0 <= j < |us| :: HeardInPart(i, us, j, lo, hi, r.value.body)
  {
    hide Ordinary, Sent, AllLines, TlvsBytes, DecodePacket, HeardInPart;
    NoHellos(i, us);
    StampLeavesUpdates(vs[lo..hi], now);
    PartIsHeard(i, us, vs, lo, hi);
  }

  class Queue {
    const mtu: nat
    var values: seq<Sendable>

    constructor (mtu: nat)
      ensures this.mtu == mtu && values == []
    {
      this.mtu := mtu;
      values := [];
    }

    method Push(vs: seq<Sendable>)
      modifies this
      ensures values == old(values) + vs
    {
      values := values + vs;
    }

    /** send: the first values in line leave; if the announced lengths are the written ones, as many as fit. `grow` is the
        capacity a buffer gets when it has to hold more. */
    method Send(now: nat -> U32, grow: nat -> nat) returns (b: Bytes, more: bool)
      modifies this
      ensures more <==> values != []
      ensures var n := |old(values)| - |values|;
              && n >= 0 && values == old(values)[n..] && b == PacketBytes(StampedAll(old(values)[..n], now), [])
              && (AllSized(old(values)) && mtu >= 4 ==> |b| <= mtu && (more ==> |b| + TlvLength(values[0]) > mtu))
    {
      hide TlvBytes, TlvsBytes, TlvLength, Stamped, StampedAll, SizedTlv, PacketBytes;
      NothingWritten();
      assert StampedAll(old(values)[..0], now) == [];
      var parser := new Parser();
      b := [MAGIC, VERSION, 0, 0];
      var capacity := Capacity(mtu, |b|, grow);
      var n := 0;
      while values != [] && |b| + TlvLength(values[0]) <= capacity
        invariant n <= |old(values)| && values == old(values)[n..] && parser.Valid() && fresh(parser)
        invariant b == [MAGIC, VERSION, 0, 0] + TlvsBytes(StampedAll(old(values)[..n], now))
        invariant AllSized(old(values)) && mtu >= 4 ==> |b| <= capacity == mtu
        decreases |values|
      {
        var v := Stamped(values[0], now(n));
        StampKeepsSize(values[0], now(n));
        if SizedTlv(values[0]) {
          TlvIsSized(v);
        }
        b := parser.AppendTlv(b, v);
        capacity := Capacity(capacity, |b|, grow);
        StampedNext(old(values), n, now);
        values := values[1..];
        n := n + 1;
      }
      more := values != [];
      var length: U16 := (|b| - 4) % 0x1_0000;
      PacketFinished(b, StampedAll(old(values)[..n], now), length);
      b := b[2 := length / 256];
      b := b[3 := length % 256];
    }
  }

  /** The capacity of a buffer once it holds n octets. */
  function Capacity(before: nat, n: nat, grow: nat -> nat): nat {
    if n <= before then before else if grow(n) < n then n else grow(n)
  }
}
