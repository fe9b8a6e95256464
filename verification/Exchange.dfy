/** An accepted bundle can fail half-way with working disk and backend: the final records are checked together, but
    updates are carried out one by one, and a route that moves between two records may be claimed twice on the way. */
module Exchange {
  import opened Lists
  import opened Net
  import opened Records
  import opened Ownership
  import opened StoreState
  import opened Restore
  import opened Prepare
  import opened Secrets
  import opened BundleState
  import opened BundlePlan
  import opened Bundle
  import opened ExportPlan

  // ---- Two records that exchange what they claim ----

  /** d is offered as the new form of b. */
  predicate Replaces(d: Tunnel, b: Tunnel) {
    d.id == b.id && d.name == b.name && d.iface == b.iface && d.createdAt == b.createdAt && d.kind == b.kind == WireGuardKind
  }

  ghost predicate Exchanging(env: Env, b: seq<Tunnel>, d: seq<Tunnel>, now: nat) {
    && |b| == |d| == 2 && Lawful(env) && AcceptableList(env, b) && AcceptableList(env, d)
    && Replaces(d[0], b[0]) && Replaces(d[1], b[1]) && Clash(env, d[0], b[1]) && Clash(env, d[1], b[0])
    && now >= b[0].createdAt && now >= b[1].createdAt
  }

  lemma PairFacts(env: Env, rs: seq<Tunnel>)
    requires AcceptableList(env, rs) && |rs| == 2
    ensures Valid(env, rs[0]) && Valid(env, rs[1]) && !Clash(env, rs[0], rs[1]) && !Clash(env, rs[1], rs[0])
    ensures rs[0].id != rs[1].id && rs[0].name != rs[1].name
  {
    hide Valid, Clash, TotalClaims;
    assert rs[0] in AsSet(rs) && rs[1] in AsSet(rs);
    NamesDiffer(env, rs);
  }

  lemma SpecDecidesClash(env: Env, a: Tunnel, b: Tunnel, x: Tunnel)
    requires DesiredEqual(a, b) && a.id == b.id
    ensures Clash(env, a, x) <==> Clash(env, b, x)
  {
    hide Allowed, RouteTable;
    assert XfrmIds(a) == XfrmIds(b) && Priorities(env, a) == Priorities(env, b);
    assert Claims(env, a) == Claims(env, b) && Exclusive(a) == Exclusive(b);
    FootprintDecidesClash(env, a, b, x);
  }

  /** The entry is planned as an update to a record with the claims asked for. */
  lemma ExchangedEntry(env: Env, b: Tunnel, d: Tunnel, other: Tunnel, now: nat, headers: seq<string>)
    requires Lawful(env) && Valid(env, b) && Valid(env, d) && Replaces(d, b) && now >= b.createdAt
    requires Clash(env, d, other) && !Clash(env, b, other)
    ensures SpecChosen(d) && SpecChosen(b)
    ensures var r := Reinstated(env, d, b, now);
            && PlanExisting(env, b, d, now, headers) == Some(Modify(b, r))
            && Valid(env, r) && SameFootprint(env, r, d) && Clash(env, r, other) && r.id == b.id
  {
    ValidIsChosen(env, d);
    ValidIsChosen(env, b);
    hide Valid, Clash, SameFootprint, PrepareUpdate, Reinstated;
    PrepareUpdateOfValid(env, d, b, now, headers);
    PreparedUpdate(env, d, b, now, headers);
    var r := Reinstated(env, d, b, now);
    FootprintDecidesClash(env, r, d, other);
    if DesiredEqual(b, r) {
      SpecDecidesClash(env, b, r, other);
    }
  }

  // ---- The plan ----

  /** The store holds exactly these two records, however they are listed. */
  ghost predicate ListsPair(current: seq<Tunnel>, b: seq<Tunnel>) {
    && |b| == 2 && b[0].id != b[1].id && b[0].name != b[1].name
    && DistinctIds(current) && TableOf(current) == map[b[0].id := b[0], b[1].id := b[1]]
  }

  lemma ListedIsFound(current: seq<Tunnel>, b: seq<Tunnel>, i: nat, d: Tunnel)
    requires ListsPair(current, b) && i < 2 && d.id == b[i].id && d.name == b[i].name && d.id != ""
    ensures FindExisting(TableOf(current), ByName(current), d) == Matched(b[i])
  {
    TableOfList(current);
    var have := TableOf(current);
    assert b[i].id in have && have[b[i].id] == b[i];
    assert b[i] in current;
    var at :| 0 <= at < |current| && current[at] == b[i];
    forall j, k | 0 <= j < k < |current|
      ensures current[j].name != current[k].name
    {
      assert current[j] in current && current[k] in current;
    }
    NameIsFound(current, at);
  }

  lemma ListedIds(current: seq<Tunnel>, b: seq<Tunnel>)
    requires ListsPair(current, b)
    ensures IdSet(current) == {b[0].id, b[1].id}
  {
    TableOfList(current);
  }

  lemma ExchangeEntries(env: Env, current: seq<Tunnel>, b: seq<Tunnel>, d: seq<Tunnel>, now: nat, draws: nat -> Draws,
                        c0: Change, c1: Change)
    requires ListsPair(current, b) && |d| == 2 && d[0].id == b[0].id && d[0].name == b[0].name && d[1].id == b[1].id && d[1].name == b[1].name
    requires NamedAs(env, d[0]) && NamedAs(env, d[1])
    requires PlanExisting(env, b[0], d[0], now, draws(0).headers) == Some(c0)
    requires PlanExisting(env, b[1], d[1], now, draws(1).headers) == Some(c1)
    ensures Entries(env, current, d, now, draws) ==
            Some(Progress({d[0].name, d[1].name}, {d[0].id, d[1].id}, {b[0].id, b[1].id}, [c0, c1], [LeftBy(c0), LeftBy(c1)], current))
  {
    hide PlanExisting, FindExisting, Entry, LeftBy;
    var have, byName := TableOf(current), ByName(current);
    var p0 := Progress({}, {}, {}, [], [], current);
    var p1 := Progress({d[0].name}, {d[0].id}, {b[0].id}, [c0], [LeftBy(c0)], current);
    ListedIsFound(current, b, 0, d[0]);
    ListedIsFound(current, b, 1, d[1]);
    MatchedEntry(env, have, byName, p0, d[0], now, draws(0), b[0], c0);
    MatchedEntry(env, have, byName, p1, d[1], now, draws(1), b[1], c1);
    assert d[..1] == [d[0]] && d[..1][..0] == [];
    assert Entries(env, current, d[..1], now, draws) == Some(p1) by {
      assert Entries(env, current, [], now, draws) == Some(p0);
      assert {} + {d[0].name} == {d[0].name} && {} + {d[0].id} == {d[0].id} && {} + {b[0].id} == {b[0].id};
      assert [] + [c0] == [c0] && [] + [LeftBy(c0)] == [LeftBy(c0)];
    }
    assert {d[0].name} + {d[1].name} == {d[0].name, d[1].name} && {d[0].id} + {d[1].id} == {d[0].id, d[1].id};
    assert {b[0].id} + {b[1].id} == {b[0].id, b[1].id};
    assert [c0] + [c1] == [c0, c1] && [LeftBy(c0)] + [LeftBy(c1)] == [LeftBy(c0), LeftBy(c1)];
  }

  predicate NamedAs(env: Env, t: Tunnel) { t.name != "" && t.id != "" && env.validId(t.id) }

  lemma ValidIsNamed(env: Env, t: Tunnel)
    requires Lawful(env) && Valid(env, t)
    ensures NamedAs(env, t)
  {
  }

  /** Two updates, the first of which makes a claim that the second record still holds. */
  ghost predicate Colliding(env: Env, b: seq<Tunnel>, cs: seq<Change>) {
    && |b| == |cs| == 2 && cs[0].Modify? && cs[1].Modify?
    && cs[0].after.id == b[0].id && Clash(env, cs[0].after, b[1])
  }

  /** The exchange is accepted. */
  lemma ExchangeIsAccepted(env: Env, current: seq<Tunnel>, b: seq<Tunnel>, d: seq<Tunnel>, prune: bool, now: nat, draws: nat -> Draws)
    returns (q: Progress)
    requires Exchanging(env, b, d, now) && ListsPair(current, b)
    ensures PlanOf(env, current, BUNDLE_VERSION, d, prune, now, draws) == Some(q) && Colliding(env, b, q.changes)
  {
    hide Valid, Clash, SameFootprint, PlanExisting, AcceptableList, Reinstated, Entries, Unmatched, PlanOf, ListsPair, NamedAs;
    PairFacts(env, b);
    PairFacts(env, d);
    ExchangedEntry(env, b[0], d[0], b[1], now, draws(0).headers);
    ExchangedEntry(env, b[1], d[1], b[0], now, draws(1).headers);
    ValidIsNamed(env, d[0]);
    ValidIsNamed(env, d[1]);
    var c0, c1 := Modify(b[0], Reinstated(env, d[0], b[0], now)), Modify(b[1], Reinstated(env, d[1], b[1], now));
    ExchangeEntries(env, current, b, d, now, draws, c0, c1);
    q := Entries(env, current, d, now, draws).value;
    ExportFinalsAreAcceptable(env, d, q.finals);
    AllMatched(env, current, b, d, prune, now, draws, q);
  }

  lemma AllMatched(env: Env, current: seq<Tunnel>, b: seq<Tunnel>, d: seq<Tunnel>, prune: bool, now: nat, draws: nat -> Draws, q: Progress)
    requires ListsPair(current, b) && |d| == 2 && Entries(env, current, d, now, draws) == Some(q)
    requires q.matched == {b[0].id, b[1].id} && AcceptableList(env, q.finals)
    ensures PlanOf(env, current, BUNDLE_VERSION, d, prune, now, draws) == Some(q)
  {
    hide AcceptableList, Entries, Unmatched;
    ListedIds(current, b);
    NothingUnmatched(q, current, prune);
  }

  // ---- What becomes of it ----

  lemma TwoUpdatesInOrder(cs: seq<Change>)
    requires |cs| == 2 && cs[0].Modify? && cs[1].Modify?
    ensures SortStable(RankLess, cs) == cs
  {
    hide SortStable;
    SortPair(RankLess, cs[0], cs[1]);
    assert cs == [cs[0], cs[1]];
  }

  lemma ClashIsInconsistent(env: Env, s: Table, i: string, j: string)
    requires i in s && j in s && s[i] != s[j] && Clash(env, s[i], s[j])
    ensures !Consistent(env, s)
  {
    hide Valid, Clash, TotalClaims;
    assert s[i] in Stored(s) && s[j] in Stored(s);
  }

  /** After its first update two records claim the same. */
  lemma ExchangeConflicts(env: Env, have: Table, b: seq<Tunnel>, cs: seq<Change>)
    requires |b| == 2 && b[0].id != b[1].id && have == map[b[0].id := b[0], b[1].id := b[1]]
    requires Colliding(env, b, cs)
    ensures !ConsistentAll(env, have, cs)
  {
    hide Consistent, Clash;
    assert cs[..1] == [cs[0]] && cs[..1][..0] == [];
    assert After(have, []) == have;
    var s := After(have, cs[..1]);
    assert s == have[b[0].id := cs[0].after];
    assert s[b[0].id] == cs[0].after && s[b[1].id] == b[1];
    ClashIsInconsistent(env, s, b[0].id, b[1].id);
  }

  /** However the store lists its two records, and although neither backend nor disk fails, the accepted bundle is not
      completed. */
  method ApplyExchange(m: Manager, b: seq<Tunnel>, d: seq<Tunnel>, prune: bool, now: nat, draws: nat -> Draws,
                       attempts: nat -> Attempt, undo: nat -> StoreState.Disk, clock: nat -> nat) returns (v: BundleVerdict)
    requires m.store.Valid() && Exchanging(m.store.env, b, d, now) && FreshIds(draws, m.store.files)
    requires b[0].id != b[1].id && m.store.files == map[b[0].id := b[0], b[1].id := b[1]] && Succeeding(attempts)
    modifies m.store`files
    ensures v.Undone?
  {
    hide Clash, AcceptableList, PlanOf, Consistent, FreshIds, ConsistentAll;
    ghost var env, have := m.store.env, m.store.files;
    PairFacts(env, b);
    var verdict, plan, applied, current := ApplyBundle(m, BUNDLE_VERSION, d, prune, now, draws, attempts, undo, clock);
    ghost var q := ExchangeIsAccepted(env, current, b, d, prune, now, draws);
    TwoUpdatesInOrder(q.changes);
    ExchangeConflicts(env, have, b, q.changes);
    return verdict;
  }
}
