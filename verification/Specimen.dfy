/** An environment and records as the program can have them: what the proofs ask for is met. */
module Specimen {
  import opened Lists
  import opened Net
  import opened Records
  import opened Ownership
  import opened Prepare
  import opened Secrets
  import opened Exchange

  function Key(c: char): string { seq(32, _ => c) }

  /** Keys are 32 octets, written behind an equals sign. */
  const ENV := Env(
    id => id in {"a", "b"},
    name => true,
    iface => true,
    text => if |text| == 33 && text[0] == '=' then Some(text[1..]) else None,
    key => if |key| == 32 then key else Key('0'),
    key => "=" + key,
    (text, octets) => |text| == 2 * octets,
    (private, public, remote) => true,
    id => if id == "a" then 1 else 2,
    id => 0,
    id => 0,
    prefix => false,
    (kind, rest) => true,
    source => true,
    rest => true)

  /** There is a lawful environment in which every key has 32 octets, and every 32 octets are a key. */
  lemma LawfulEnvironment()
    ensures Lawful(ENV)
    ensures forall text | ENV.parseKey(text).Some? :: |ENV.parseKey(text).value| == 32
    ensures forall key: string | |key| == 32 :: ENV.parseKey(ENV.keyText(key)) == Some(key)
  {
    assert |CLEAR| != 33;
    forall key: string
      ensures |key| == 32 ==> ENV.parseKey(ENV.keyText(key)) == Some(key)
      ensures ENV.parseKey(ENV.keyText(ENV.publicOf(key))) == Some(ENV.publicOf(key))
    {
      var public := ENV.publicOf(key);
      assert ("=" + key)[1..] == key && ("=" + public)[1..] == public;
    }
  }

  // ---- Two WireGuard records ----

  /** 10.0.0.0/8 and 11.0.0.0/8 */
  function Network(first: Byte): Prefix { Prefix(V4([first, 0, 0, 0]), 8) }

  function Tunneled(first: Byte): WireGuard {
    WireGuard("=" + Key('1'), "=" + Key('1'), 1420, true, 0, [Peer("=" + Key('2'), "", [Network(first)], "")], "")
  }

  /** The record `id` that routes the given network. */
  function Record(id: string, first: Byte): Tunnel {
    Tunnel(SCHEMA, id, 1, id, WireGuardKind, id, true,
           Spec(None, None, Some(Tunneled(first)), None, None, None, None, None, None), 1, 1)
  }

  lemma TunneledIsValid(first: Byte)
    ensures ValidWireGuard(ENV, Tunneled(first))
  {
    var s := Tunneled(first);
    hide KeepHigh, MaskOctets;
    assert ("=" + Key('1'))[1..] == Key('1') && ("=" + Key('2'))[1..] == Key('2');
    assert AllowedCount(s.peers[..0]) == 0;
    assert ValidPeer(ENV, s.peers[0]);
  }

  lemma RecordIsValid(id: string, first: Byte)
    requires id in {"a", "b"}
    ensures Valid(ENV, Record(id, first))
  {
    hide ValidWireGuard, Tunneled;
    TunneledIsValid(first);
  }

  lemma MasksDiffer()
    ensures Masked(Network(10)) != Masked(Network(11))
  {
    assert Masked(Network(10)).addr.octets[0] == 10 && Masked(Network(11)).addr.octets[0] == 11;
  }

  lemma RecordClaims(id: string, first: Byte)
    ensures Claims(ENV, Record(id, first)) == {Claim(MAIN_TABLE, Masked(Network(first)))}
  {
    hide Masked;
    var t, s := Record(id, first), Tunneled(first);
    assert !HasDefaultRoute(s.peers);
    assert s.peers[0] in s.peers && Network(first) in s.peers[0].allowedIPs;
    assert Allowed(s.peers) == {Masked(Network(first))};
  }

  lemma PrioritiesDiffer(first: Byte, second: Byte)
    ensures !SharesPriority(ENV, Record("a", first), Record("b", second))
  {
    assert "a" != "b";
    assert Priorities(ENV, Record("a", first)) == [100002, 100003] && Priorities(ENV, Record("b", second)) == [100004, 100005];
  }

  lemma RoutesShared(a: Tunnel, b: Tunnel, p: Prefix, q: Prefix)
    requires Claims(ENV, a) == {Claim(MAIN_TABLE, p)} && Claims(ENV, b) == {Claim(MAIN_TABLE, q)}
    requires Exclusive(a) == {} == Exclusive(b)
    ensures SharesRoutes(ENV, a, b) <==> p == q
  {
    hide Claims, Exclusive;
    if p == q {
      assert Claim(MAIN_TABLE, p) in Claims(ENV, a) * Claims(ENV, b);
    } else {
      assert Claims(ENV, a) * Claims(ENV, b) == {};
    }
  }

  /** Records clash exactly when they route the same network. */
  lemma RecordsClash(first: Byte, second: Byte)
    requires first in {10, 11} && second in {10, 11}
    ensures Clash(ENV, Record("a", first), Record("b", second)) <==> first == second
    ensures Clash(ENV, Record("b", second), Record("a", first)) <==> first == second
  {
    var a, b := Record("a", first), Record("b", second);
    RecordClaims("a", first);
    RecordClaims("b", second);
    PrioritiesDiffer(first, second);
    MasksDiffer();
    assert "a" != "b";
    hide Claims, SharesPriority, SharesRoutes, Masked;
    RoutesShared(a, b, Masked(Network(first)), Masked(Network(second)));
    ClashIsSymmetric(ENV, a, b);
  }

  lemma PairIsAcceptable(first: Byte, second: Byte)
    requires first in {10, 11} && second in {10, 11} && first != second
    ensures AcceptableList(ENV, [Record("a", first), Record("b", second)])
  {
    RecordIsValid("a", first);
    RecordIsValid("b", second);
    RecordsClash(first, second);
    RecordClaims("a", first);
    RecordClaims("b", second);
    assert "a" != "b";
    TwoAreAcceptable(Record("a", first), Record("b", second));
  }

  lemma TwoAreAcceptable(a: Tunnel, b: Tunnel)
    requires Valid(ENV, a) && Valid(ENV, b) && a.id != b.id && !Clash(ENV, a, b) && !Clash(ENV, b, a)
    requires |Claims(ENV, a)| == 1 == |Claims(ENV, b)|
    ensures AcceptableList(ENV, [a, b])
  {
    hide Valid, Clash, Claims, TotalClaims;
    assert AsSet([a, b]) == {} + {a} + {b};
    assert TotalClaims(ENV, {}) == 0 by { NothingOwned(); }
    TotalAdds(ENV, {}, a);
    TotalAdds(ENV, {} + {a}, b);
  }

  lemma NothingOwned()
    ensures TotalClaims(ENV, {}) == 0
  {
    assert Owned(ENV, {}) == {};
  }

  /** Two records that exchange the networks they route: an accepted bundle that is not completed. */
  lemma RecordReplaces(name: string, next: Byte, before: Byte)
    ensures Replaces(Record(name, next), Record(name, before))
  {
  }

  lemma CreatedByOne()
    ensures forall name, k: Byte {:trigger Record(name, k)} :: Record(name, k).createdAt <= 1
  {
  }

  lemma ExchangeExists() returns (b: seq<Tunnel>, d: seq<Tunnel>)
    ensures Exchanging(ENV, b, d, 1)
  {
    b, d := [Record("a", 10), Record("b", 11)], [Record("a", 11), Record("b", 10)];
    LawfulEnvironment();
    PairIsAcceptable(10, 11);
    PairIsAcceptable(11, 10);
    RecordsClash(11, 11);
    RecordsClash(10, 10);
    RecordReplaces("a", 11, 10);
    RecordReplaces("b", 10, 11);
    hide Lawful, AcceptableList, Clash, Replaces, Record;
    assert b[0] == Record("a", 10) && b[1] == Record("b", 11) && d[0] == Record("a", 11) && d[1] == Record("b", 10);
    CreatedByOne();
  }
}
